/** The buddy allocator: `alloc_pages` and `free_pages`. */
module BuddyAllocator {
  import opened Bits
  import opened Machine
  import opened Sequences
  import opened Tilings
  import opened PageLists
  import opened Reservation
  import opened ReservedLists
  import opened Wrappers

  /** `alloc_pages` gave out block `r` of order `o`: it was wholly free, and nothing else changed hands. */
  ghost predicate AllocStep(z: Zone, t: Tiling, u: Tiling, r: nat, o: nat) {
    && FreeRun(z, t, r, o)
    && LiveBlocks(u) == LiveBlocks(t)[r := o]
  }

  /** `free_pages` took back the live block at `p`. */
  ghost predicate FreeStep(t: Tiling, u: Tiling, p: nat) {
    && p in LiveBlocks(t)
    && LiveBlocks(u) == LiveBlocks(t) - {p}
  }

  /** The free lists after the front block `h` of `lists[i]` was split down to order `low`
      and removed: each order in between keeps the upper half that was split off. */
  ghost function AfterSplit(lists: seq<seq<nat>>, low: nat, i: nat, h: nat): seq<seq<nat>>
    requires i < |lists| && lists[i] != []
  {
    seq(|lists|, k requires 0 <= k < |lists| =>
      if k == i then lists[i][1..] else if low <= k < i then [h + Pow2(k)] else lists[k])
  }

  /** The block came from the front of the first nonempty list at or above the wanted order. */
  ghost predicate BestFit(lists: seq<seq<nat>>, order: nat, i: nat, h: nat) {
    && order <= i < |lists|
    && (forall j :: order <= j < i ==> lists[j] == [])
    && lists[i] != [] && lists[i][0] == h
  }

  /** The upper half of a block of order above 0 is its buddy one order down, inside the zone. */
  lemma BuddyOfHalf(z: Zone, t: Tiling, h: nat)
    requires Tiles(z, t) && h in t && t[h].order > 0
    ensures Xor(h, Pow2(t[h].order - 1)) == h + Pow2(t[h].order - 1) < z.numPages
  {
    AlignedWeaken(h, t[h].order - 1, t[h].order);
    XorFlip(h, t[h].order - 1);
    assert End(t, h) <= z.numPages;
  }

  /** With all lists from `order` up empty, no aligned run of that order is wholly free. */
  lemma EmptyListsNoRun(z: Zone, t: Tiling, mem: seq<Page>, free: seq<seq<nat>>, order: nat)
    requires Tiles(z, t) && Coalesced(z, t) && Rep(z, t, mem, free) && order <= z.maxOrder
    requires forall j :: order <= j <= z.maxOrder ==> free[j] == []
    ensures forall q: nat :: !FreeRun(z, t, q, order)
  {
    if q: nat :| FreeRun(z, t, q, order) {
      var h := FreeRunInOneBlock(z, t, q, order);
      FreeBlockListed(z, t, mem, free, h);
      assert false;
    }
  }

  lemma FreeBlockListed(z: Zone, t: Tiling, mem: seq<Page>, free: seq<seq<nat>>, h: nat)
    requires Tiles(z, t) && Rep(z, t, mem, free) && h in t && !t[h].live
    ensures t[h].order <= z.maxOrder && h in free[t[h].order]
  {
  }

  /** A listed block of order `i` starts a free run of every smaller order. */
  lemma ListedBlockIsRun(z: Zone, t: Tiling, h: nat, order: nat)
    requires Tiles(z, t) && h in t && !t[h].live && order <= t[h].order
    ensures FreeRun(z, t, h, order)
  {
    AlignedWeaken(h, order, t[h].order);
    Pow2Monotone(order, t[h].order);
    forall p | h <= p < h + Pow2(order) ensures FreePage(t, p) { assert InBlock(t, h, p); }
  }

  lemma AfterSplitRound(lists: seq<seq<nat>>, free: seq<seq<nat>>, k: nat, i: nat, h: nat)
    requires k < i < |lists| == |free| && lists[i] != []
    requires forall j :: k <= j < i ==> lists[j] == []
    requires var rest := AfterSplit(lists, k + 1, i, h);
      free[k + 1] == [h] + rest[k + 1] && free[k + 1 := rest[k + 1]] == rest
    ensures var rest := AfterSplit(lists, k, i, h);
      var free' := free[k + 1 := free[k + 1][1..]][k := [h, h + Pow2(k)] + free[k]];
      free'[k] == [h] + rest[k] && free'[k := rest[k]] == rest
  {
    var before := AfterSplit(lists, k + 1, i, h);
    assert free[k] == free[k + 1 := before[k + 1]][k] == lists[k] == [];
    assert [h, h + Pow2(k)] + free[k] == [h] + [h + Pow2(k)];
    assert free[k + 1][1..] == before[k + 1];
    assert free[k + 1 := before[k + 1]][k := [h + Pow2(k)]] == AfterSplit(lists, k, i, h);
  }

  /** Each list after the split, one by one. */
  lemma AfterSplitIs(lists: seq<seq<nat>>, free: seq<seq<nat>>, low: nat, i: nat, h: nat)
    requires BestFit(lists, low, i, h) && free == AfterSplit(lists, low, i, h)
    ensures |free| == |lists| && lists[i] == [h] + free[i]
    ensures forall k :: low <= k < i ==> lists[k] == [] && free[k] == [h + Pow2(k)]
    ensures forall k :: 0 <= k < |free| && (k < low || i < k) ==> free[k] == lists[k]
  {
    hide Pow2;
  }

  lemma UpdateTwice<T>(s: seq<T>, i: nat, j: nat, a: T, b: T, c: T)
    requires i < |s| && j < |s| && i != j
    ensures s[j := c][i := b] == s[i := a][i := b][j := c]
  {
  }

  /** The state inside the splitting loop: block `h`, now of order `k`, is at the front of
      `free[k]`; all it lacks is its `order` field, which is set after the loop. */
  ghost predicate Splitting(z: Zone, t: Tiling, mem: seq<Page>, free: seq<seq<nat>>,
                            lists: seq<seq<nat>>, h: nat, k: nat, i: nat) {
    && k <= i < |lists| && lists[i] != [] && h < |mem|
    && Tiles(z, t) && h in t && t[h] == Tile(k, false) && Coalesced(z, Hold(t, h))
    && Rep(z, t, mem[h := Page(k, 0)], free)
    && |free| == |lists|
    && var rest := AfterSplit(lists, k, i, h);
       free[k] == [h] + rest[k] && free[k := rest[k]] == rest
  }

  lemma SplittingStart(z: Zone, t: Tiling, mem: seq<Page>, lists: seq<seq<nat>>, order: nat, i: nat)
    requires Tiles(z, t) && Coalesced(z, t) && Rep(z, t, mem, lists)
    requires order <= i < |lists| && lists[i] != []
    ensures lists[i][0] < |mem| && FreeRun(z, t, lists[i][0], order)
    ensures Splitting(z, t, mem, lists, lists, lists[i][0], i, i)
  {
    var h := lists[i][0];
    assert h in lists[i];
    ListedBlockIsRun(z, t, h, order);
    HoldTiles(z, t, h);
    assert mem[h := Page(i, 0)] == mem;
    assert lists[i] == [h] + lists[i][1..];
  }

  /** One round of splitting: `h` keeps the lower half, the upper half becomes free. */
  lemma SplittingRound(z: Zone, t: Tiling, mem: seq<Page>, free: seq<seq<nat>>,
                       lists: seq<seq<nat>>, h: nat, k: nat, i: nat, m: nat)
    requires Splitting(z, t, mem, free, lists, h, k + 1, i)
    requires forall j :: k <= j < i ==> lists[j] == []
    requires m == Xor(h, Pow2(k))
    ensures m == h + Pow2(k) < |mem|
    ensures k + 1 < |free| && free[k + 1] != [] && free[k + 1][0] == h
    ensures h in t && t[h] == Tile(k + 1, false)
    ensures var u := Split(t, h, false, false);
      && LiveBlocks(u) == LiveBlocks(t)
      && Splitting(z, u, mem[m := Page(k, 0)], free[k + 1 := free[k + 1][1..]][k := [h, m] + free[k]], lists, h, k, i)
  {
    hide Rep, Tiles, Coalesced, AfterSplit, LiveBlocks, Aligned, Xor, Splitting;
    SplittingParts(z, t, mem, free, lists, h, k + 1, i);
    BuddyOfHalf(z, t, h);
    var u := Split(t, h, false, false);
    var free' := free[k + 1 := free[k + 1][1..]][k := [h, m] + free[k]];
    SplitTiles(z, t, h, false, false);
    SplitLive(t, h);
    SplitCoalesced(z, t, h, true, false);
    assert Hold(u, h) == Split(t, h, true, false);
    var mem0 := mem[h := Page(k + 1, 0)];
    PopIsRemove(z, t, mem0, free, k + 1);
    UpdateTwice(mem, h, m, Page(k + 1, 0), Page(k, 0), Page(k, 0));
    RepSplit(z, t, mem0, free, h, mem[m := Page(k, 0)][h := Page(k, 0)], free');
    AfterSplitRound(lists, free, k, i, h);
    SplittingIntro(z, u, mem[m := Page(k, 0)], free', lists, h, k, i);
  }

  lemma SplittingIntro(z: Zone, t: Tiling, mem: seq<Page>, free: seq<seq<nat>>,
                       lists: seq<seq<nat>>, h: nat, k: nat, i: nat)
    requires k <= i < |lists| && lists[i] != [] && h < |mem|
    requires Tiles(z, t) && h in t && t[h] == Tile(k, false) && Coalesced(z, Hold(t, h))
    requires Rep(z, t, mem[h := Page(k, 0)], free) && |free| == |lists|
    requires var rest := AfterSplit(lists, k, i, h); free[k] == [h] + rest[k] && free[k := rest[k]] == rest
    ensures Splitting(z, t, mem, free, lists, h, k, i)
  {
  }

  lemma SplittingParts(z: Zone, t: Tiling, mem: seq<Page>, free: seq<seq<nat>>,
                       lists: seq<seq<nat>>, h: nat, k: nat, i: nat)
    requires Splitting(z, t, mem, free, lists, h, k, i)
    ensures h < |mem| && Tiles(z, t) && h in t && t[h] == Tile(k, false) && Coalesced(z, Hold(t, h))
    ensures Rep(z, t, mem[h := Page(k, 0)], free) && z.numPages == |mem| && z.maxOrder + 1 == |free|
    ensures k <= i < |lists| == |free| && lists[i] != [] && free[k] != [] && free[k][0] == h
    ensures var rest := AfterSplit(lists, k, i, h);
      free[k] == [h] + rest[k] && free[k := rest[k]] == rest && free[k := free[k][1..]] == rest
  {
  }

  /** The state inside the merging loop: block `p` still counts as in use, but its reference
      count is already 0. */
  ghost predicate Freeing(z: Zone, t: Tiling, mem: seq<Page>, free: seq<seq<nat>>, p: nat) {
    && z.Valid() && Tiles(z, t) && Coalesced(z, t)
    && p in t && t[p].live && p < |mem| && mem[p] == Page(t[p].order, 0)
    && Rep(z, t, mem[p := Page(t[p].order, 1)], free)
  }

  lemma FreeingHead(z: Zone, t: Tiling, mem: seq<Page>, free: seq<seq<nat>>, p: nat)
    requires Freeing(z, t, mem, free, p)
    ensures z.Valid() && p in t && p < |mem| && mem[p] == Page(t[p].order, 0)
    ensures t[p].order <= z.maxOrder && |free| == z.maxOrder + 1 && t[p].live
    ensures Tiles(z, t) && Coalesced(z, t) && Rep(z, t, mem[p := Page(t[p].order, 1)], free)
  {
  }

  lemma TopBuddyBusy(z: Zone, t: Tiling, p: nat)
    requires p in t && t[p].order >= z.maxOrder
    ensures BuddyBusy(z, t, p)
  {
  }

  /** The field test is exact: it succeeds precisely if the buddy is on the list of its order,
      which is precisely when the two blocks can be merged. */
  lemma FreeingTest(z: Zone, t: Tiling, mem: seq<Page>, free: seq<seq<nat>>, p: nat, b: nat)
    requires Freeing(z, t, mem, free, p) && 0 <= mem[p].order < z.maxOrder && b == Xor(p, Pow2(mem[p].order))
    ensures p in t && t[p].order == mem[p].order < |free| && b < |mem| && b != p
    ensures mem[b].order == mem[p].order && mem[b].refcount == 0 <==> b in free[t[p].order]
    ensures b in free[t[p].order] <==> b in t && t[b] == Tile(t[p].order, false)
    ensures b in free[t[p].order] <==> !BuddyBusy(z, t, p)
  {
    BuddyIsHead(z, t, p, b);
  }

  /** One round of merging. */
  lemma FreeingRound(z: Zone, t: Tiling, mem: seq<Page>, free: seq<seq<nat>>, p: nat, b: nat)
    requires Freeing(z, t, mem, free, p) && 0 <= mem[p].order < z.maxOrder && b == Xor(p, Pow2(mem[p].order))
    requires b < |mem| && mem[b].order == mem[p].order && mem[b].refcount == 0
    ensures var o := t[p].order; var low := if b < p then b else p;
      && low in t && End(t, low) in t && o < |free|
      && var u := Merge(t, low, true);
      && mem[low] == mem[p] == Page(o, 0) && o + 1 <= z.maxOrder
      && Freeing(z, u, mem[low := Page(o + 1, 0)], free[o := Remove(free[o], b)], low)
      && LiveBlocks(u) - {low} == LiveBlocks(t) - {p}
  {
    hide Rep, Tiles, Coalesced, Aligned, Pow2, Xor, Remove, BuddyBusy, Freeing;
    FreeingHead(z, t, mem, free, p);
    FreeingTest(z, t, mem, free, p, b);
    var o := t[p].order;
    var low := if b < p then b else p;
    BuddyIsHead(z, t, p, b);
    assert mem[b] == Page(o, 0) && low in t && End(t, low) == if b < p then p else b;
    MergeTiles(z, t, low, true);
    MergeCoalesced(z, t, low);
    var mem' := mem[low := Page(o + 1, 0)];
    assert mem'[low := Page(o + 1, 1)] == mem[p := Page(o, 1)][p := Page(o, 0)][low := Page(o + 1, 1)];
    RepMerge(z, t, mem[p := Page(o, 1)], free, p, b, mem'[low := Page(o + 1, 1)], free[o := Remove(free[o], b)]);
    FreeingIntro(z, Merge(t, low, true), mem', free[o := Remove(free[o], b)], low);
    MergeLive(t, p, low);
  }

  lemma FreeingIntro(z: Zone, t: Tiling, mem: seq<Page>, free: seq<seq<nat>>, p: nat)
    requires z.Valid() && Tiles(z, t) && Coalesced(z, t)
    requires p in t && t[p].live && p < |mem| && mem[p] == Page(t[p].order, 0)
    requires Rep(z, t, mem[p := Page(t[p].order, 1)], free)
    ensures Freeing(z, t, mem, free, p)
  {
  }

  lemma MergeLive(t: Tiling, p: nat, low: nat)
    requires low in t && End(t, low) in t && p in t && t[p].live && (p == low || p == End(t, low))
    requires p == low ==> !t[End(t, low)].live
    requires p == End(t, low) ==> !t[low].live
    ensures LiveBlocks(Merge(t, low, true)) - {low} == LiveBlocks(t) - {p}
  {
  }

  lemma ReleasedTile(t: Tiling, p: nat)
    requires p in t
    ensures p in Release(t, p) && Release(t, p)[p] == Tile(t[p].order, false)
  {
  }

  /** Leaving the loop: no merge applies, and the block goes back to its free list. */
  lemma FreeingDone(z: Zone, t: Tiling, mem: seq<Page>, free: seq<seq<nat>>, p: nat)
    requires Freeing(z, t, mem, free, p) && BuddyBusy(z, t, p)
    ensures var o := t[p].order;
      && o < |free| && Tiles(z, Release(t, p)) && Coalesced(z, Release(t, p))
      && Rep(z, Release(t, p), mem, free[o := [p] + free[o]])
      && LiveBlocks(Release(t, p)) == LiveBlocks(t) - {p}
  {
    hide Rep, Tiles, Coalesced, BuddyBusy, Freeing, LiveBlocks, Release, Hold;
    FreeingHead(z, t, mem, free, p);
    var o := t[p].order;
    HoldLive(t, p);
    ReleaseCoalesced(z, t, p);
    HoldTiles(z, t, p);
    assert mem == mem[p := Page(o, 1)][p := Page(o, 0)];
    RepRelease(z, t, mem[p := Page(o, 1)], free, p, mem, free[o := [p] + free[o]]);
  }

  /** The free lists after the block at `p` (of order `low`) was merged up to order `k`: each
      order in between has lost the buddy of the block of that order around `p`. */
  ghost function AfterMerge(lists: seq<seq<nat>>, p: nat, low: nat, k: nat): seq<seq<nat>> {
    seq(|lists|, j requires 0 <= j < |lists| =>
      if low <= j < k then Remove(lists[j], Xor(RoundDown(p, j), Pow2(j))) else lists[j])
  }

  lemma AfterMergeRound(lists: seq<seq<nat>>, p: nat, low: nat, k: nat)
    requires low <= k < |lists|
    ensures var free := AfterMerge(lists, p, low, k);
      AfterMerge(lists, p, low, k + 1) == free[k := Remove(free[k], Xor(RoundDown(p, k), Pow2(k)))]
  {
  }

  lemma AfterMergeStart(lists: seq<seq<nat>>, p: nat, low: nat)
    ensures AfterMerge(lists, p, low, low) == lists
  {
  }

  /** The lists after a free: the joint block in front, the merged buddies gone. */
  lemma FreedLists(was: seq<seq<nat>>, now: seq<seq<nat>>, p: nat, low: nat, k: nat)
    requires low <= k < |was|
    requires var merged := AfterMerge(was, p, low, k);
      k < |merged| && now == merged[k := [RoundDown(p, k)] + merged[k]]
    ensures |now| == |was| && now[k] == [RoundDown(p, k)] + was[k]
    ensures forall j :: low <= j < k ==> now[j] == Remove(was[j], Xor(RoundDown(p, j), Pow2(j)))
    ensures forall j :: 0 <= j < |now| && (j < low || k < j) ==> now[j] == was[j]
  {
    hide Remove, Xor, RoundDown, Pow2, AfterMerge;
    AfterMergeIs(was, p, low, k);
  }

  lemma AfterMergeIs(lists: seq<seq<nat>>, p: nat, low: nat, k: nat)
    ensures var free := AfterMerge(lists, p, low, k);
      && |free| == |lists|
      && (forall j :: low <= j < k && j < |lists| ==> free[j] == Remove(lists[j], Xor(RoundDown(p, j), Pow2(j))))
      && forall j :: 0 <= j < |lists| && (j < low || k <= j) ==> free[j] == lists[j]
  {
    hide Remove, Xor, RoundDown, Pow2;
  }

  lemma RoundDownHead(z: Zone, t: Tiling, p: nat)
    requires Tiles(z, t) && p in t
    ensures RoundDown(p, t[p].order) == p
  {
    RoundDownUnique(p, t[p].order, p);
  }

  /** The joint block is the block of the next order around the freed page. */
  lemma JointBlockAround(z: Zone, t: Tiling, p: nat, b: nat, start: nat)
    requires z.Valid() && Tiles(z, t) && p in t && t[p].order < z.maxOrder && b == Xor(p, Pow2(t[p].order))
    requires RoundDown(start, t[p].order) == p
    ensures RoundDown(start, t[p].order + 1) == if b < p then b else p
  {
    var o := t[p].order;
    RoundDownIs(start, o);
    BuddyIsHead(z, t, p, b);
    assert End(t, p) == p + Pow2(o);
    RoundDownUnique(start, o + 1, if b < p then b else p);
  }

  /** All of memory as free MAX_ORDER blocks. */
  ghost function Initial(z: Zone): Tiling {
    map h: nat | h < z.numPages && Aligned(h, z.maxOrder) :: Tile(z.maxOrder, false)
  }

  lemma InitialTiles(z: Zone)
    requires z.Valid()
    ensures Tiles(z, Initial(z)) && Coalesced(z, Initial(z))
  {
    var t := Initial(z);
    AlignedZero(z.maxOrder);
    forall h {:trigger End(t, h)} | h in t
      ensures End(t, h) == z.numPages || (End(t, h) < z.numPages && End(t, h) in t)
    {
      AlignedShift(h, z.maxOrder);
      AlignedGap(h, z.numPages, z.maxOrder);
    }
    forall h, g {:trigger End(t, h), g in t} | h in t && g in t && h < g ensures End(t, h) <= g {
      AlignedGap(h, g, z.maxOrder);
    }
  }

  /** The fields after the initialisation loop has dealt with the pages below `i`. */
  ghost predicate Initialised(z: Zone, mem: seq<Page>, free: seq<seq<nat>>, i: nat) {
    && |mem| == z.numPages && |free| == z.maxOrder + 1
    && (forall o :: 0 <= o < z.maxOrder ==> free[o] == [])
    && Ascending(free[z.maxOrder])
    && (forall h: nat :: h in free[z.maxOrder] <==> h < i && h in Initial(z))
    && (forall h: nat :: h < i && h in Initial(z) ==> h < |mem| && mem[h].order == z.maxOrder)
    && (forall p :: 0 <= p < |mem| ==> mem[p].refcount == 0)
  }

  lemma InitialisedStart(z: Zone, mem: seq<Page>, free: seq<seq<nat>>)
    requires |mem| == z.numPages && |free| == z.maxOrder + 1
    requires (forall p :: 0 <= p < |mem| ==> mem[p] == Page(0, 0)) && forall o :: 0 <= o < |free| ==> free[o] == []
    ensures Initialised(z, mem, free, 0)
  {
  }

  lemma InitialisedRep(z: Zone, mem: seq<Page>, free: seq<seq<nat>>)
    requires Initialised(z, mem, free, z.numPages)
    ensures Rep(z, Initial(z), mem, free)
    ensures |free| == z.maxOrder + 1 && Ascending(free[z.maxOrder])
    ensures forall o :: 0 <= o < z.maxOrder ==> free[o] == []
  {
    hide Aligned;
  }

  lemma InitialisedRound(z: Zone, mem: seq<Page>, free: seq<seq<nat>>, i: nat)
    requires z.Valid() && i < z.numPages && Aligned(i, z.maxOrder) && Initialised(z, mem, free, i)
    ensures i < |mem| && z.maxOrder < |free|
    ensures i + Pow2(z.maxOrder) <= z.numPages && Aligned(i + Pow2(z.maxOrder), z.maxOrder)
    ensures Initialised(z, mem[i := mem[i].(order := z.maxOrder)],
                        free[z.maxOrder := free[z.maxOrder] + [i]], i + Pow2(z.maxOrder))
  {
    AlignedShift(i, z.maxOrder);
    AlignedGap(i, z.numPages, z.maxOrder);
    var maxOrder := z.maxOrder;
    var mem', free' := mem[i := mem[i].(order := maxOrder)], free[maxOrder := free[maxOrder] + [i]];
    forall h: nat {:trigger h in Initial(z)} | h in Initial(z) ensures h < i + Pow2(maxOrder) <==> h < i || h == i {
      if i < h { AlignedGap(i, h, maxOrder); }
    }
    assert i in Initial(z) && i !in free[maxOrder];
    hide Aligned, Pow2, Initial;
    assert forall k :: 0 <= k < |free[maxOrder]| ==> free[maxOrder][k] in free[maxOrder];
    assert forall h: nat :: h in free'[maxOrder] <==> h in free[maxOrder] || h == i;
    assert forall h: nat :: h < i + Pow2(maxOrder) && h in Initial(z) ==> h < |mem'| && mem'[h].order == maxOrder;
  }

  /** First page of the range; the quotient is narrowed to 32 bits. */
  function StartPfn(base: nat): nat {
    base / PAGE_SIZE % TWO_TO_THE_32
  }

  /** Last page of the range (inclusive), computed in 64 bits and then narrowed to 32. */
  function EndPfn(base: nat, size: nat): nat {
    (base + size - 1) % TWO_TO_THE_64 / PAGE_SIZE % TWO_TO_THE_32
  }

  class Allocator {
    const zone: Zone
    const memMap: array<Page>
    const freeArea: array<seq<nat>>
    ghost var tiles: Tiling

    /** The fields represent the tiling `tiles`. */
    ghost predicate Sound()
      reads this, memMap, freeArea
    {
      && zone.Valid() && Tiles(zone, tiles)
      && Rep(zone, tiles, memMap[..], freeArea[..])
    }

    ghost predicate Valid()
      reads this, memMap, freeArea
    {
      Sound() && Coalesced(zone, tiles)
    }

    /** The initialisation loop: `numPages` pages, cut into free blocks of order MAX_ORDER. */
    constructor (z: Zone)
      requires z.Valid()
      ensures Valid() && zone == z && tiles == Initial(z)
      ensures fresh(memMap) && fresh(freeArea) && freeArea.Length == z.maxOrder + 1
      ensures forall o :: 0 <= o < z.maxOrder ==> freeArea[o] == []
      ensures forall i, j :: 0 <= i < j < |freeArea[z.maxOrder]| ==> freeArea[z.maxOrder][i] < freeArea[z.maxOrder][j]
    {
      hide Initial, Initialised, Tiles, Coalesced, Rep, Aligned;
      zone := z;
      memMap := new Page[z.numPages](_ => Page(0, 0));
      freeArea := new seq<nat>[z.maxOrder + 1](_ => []);
      tiles := Initial(z);
      new;
      var i := 0;
      AlignedZero(z.maxOrder);
      InitialTiles(z);
      InitialisedStart(z, memMap[..], freeArea[..]);
      while i < z.numPages
        invariant i <= z.numPages && Aligned(i, z.maxOrder)
        invariant tiles == Initial(z) && Initialised(z, memMap[..], freeArea[..], i)
      {
        InitialisedRound(z, memMap[..], freeArea[..], i);
        memMap[i] := memMap[i].(order := z.maxOrder);
        freeArea[z.maxOrder] := freeArea[z.maxOrder] + [i];
        i := i + Pow2(z.maxOrder);
      }
      InitialisedRep(z, memMap[..], freeArea[..]);
    }

    function GetBuddy(page: nat, order: nat): nat {
      Xor(page, Pow2(order))
    }

    lemma SoundSizes()
      requires Sound()
      ensures freeArea.Length == zone.maxOrder + 1 && memMap.Length == zone.numPages
    {
    }

    /** One round of the splitting loop: the front block of `freeArea[k + 1]` is cut into
        halves, which go to the front of `freeArea[k]`, lower half first. */
    method SplitFront(k: nat)
      requires k + 1 < freeArea.Length && freeArea[k + 1] != []
      requires Xor(freeArea[k + 1][0], Pow2(k)) < memMap.Length
      modifies memMap, freeArea
      ensures var h := old(freeArea[k + 1][0]); var m := Xor(h, Pow2(k));
        && memMap[..] == old(memMap[..])[m := Page(k, 0)]
        && freeArea[..] == old(freeArea[..])[k + 1 := old(freeArea[k + 1][1..])][k := [h, m] + old(freeArea[k])]
    {
      var tmpPages := freeArea[k + 1][0];
      freeArea[k + 1] := freeArea[k + 1][1..];
      var buddyPage := GetBuddy(tmpPages, k);
      memMap[buddyPage] := memMap[buddyPage].(order := k);
      memMap[buddyPage] := memMap[buddyPage].(refcount := 0);
      freeArea[k] := [buddyPage] + freeArea[k];
      freeArea[k] := [tmpPages] + freeArea[k];
      assert freeArea[k] == [tmpPages, buddyPage] + old(freeArea[k]);
    }

    /** The same round, with the state it keeps. */
    method SplitOnce(k: nat, ghost lists: seq<seq<nat>>, ghost h: nat, ghost i: nat)
      requires k < zone.maxOrder && Splitting(zone, tiles, memMap[..], freeArea[..], lists, h, k + 1, i)
      requires forall j :: k <= j < i ==> lists[j] == []
      modifies this, memMap, freeArea
      ensures LiveBlocks(tiles) == LiveBlocks(old(tiles))
      ensures Splitting(zone, tiles, memMap[..], freeArea[..], lists, h, k, i)
    {
      hide Rep, Tiles, Coalesced, LiveBlocks, Aligned, Pow2, Xor, Split, Splitting, AfterSplit;
      SplittingRound(zone, tiles, memMap[..], freeArea[..], lists, h, k, i, GetBuddy(h, k));
      SplitFront(k);
      tiles := Split(tiles, h, false, false);
    }

    /** The splitting loop: the front block of `freeArea[i]` is split down to `order`. The
        block itself ends at the front of `freeArea[order]` with its `order` field still stale. */
    method SplitDown(order: nat, i: nat) returns (ghost h: nat)
      requires Valid() && order <= i <= zone.maxOrder && freeArea[i] != []
      requires forall j :: order <= j < i ==> freeArea[j] == []
      modifies this, memMap, freeArea
      ensures h == old(freeArea[i][0]) && h < memMap.Length
      ensures FreeRun(zone, old(tiles), h, order)
      ensures Tiles(zone, tiles) && LiveBlocks(tiles) == LiveBlocks(old(tiles))
      ensures h in tiles && tiles[h] == Tile(order, false) && Coalesced(zone, Hold(tiles, h))
      ensures Rep(zone, tiles, memMap[..][h := Page(order, 0)], freeArea[..])
      ensures freeArea[order] != [] && freeArea[order][0] == h
      ensures freeArea[..][order := freeArea[order][1..]] == AfterSplit(old(freeArea[..]), order, i, h)
    {
      hide Rep, Tiles, Coalesced, LiveBlocks, Aligned, Pow2, Xor, Split, Splitting, AfterSplit, FreeRun;
      SoundSizes();
      ghost var lists := freeArea[..];
      assert forall j :: order <= j < i ==> lists[j] == [];
      h := freeArea[i][0];
      SplittingStart(zone, tiles, memMap[..], lists, order, i);
      var tmpI := i;
      while tmpI > order
        invariant order <= tmpI <= i
        invariant LiveBlocks(tiles) == LiveBlocks(old(tiles))
        invariant Splitting(zone, tiles, memMap[..], freeArea[..], lists, h, tmpI, i)
      {
        tmpI := tmpI - 1;
        SplitOnce(tmpI, lists, h, i);
      }
      SplittingParts(zone, tiles, memMap[..], freeArea[..], lists, h, order, i);
    }

    /** The block at the front of `freeArea[order]` is handed out; its `order` field is only
        now set. */
    method TakeFront(order: nat) returns (h: nat)
      requires zone.Valid() && order < freeArea.Length && freeArea[order] != []
      requires freeArea[order][0] < memMap.Length
      requires Tiles(zone, tiles) && Rep(zone, tiles, memMap[..][freeArea[order][0] := Page(order, 0)], freeArea[..])
      requires freeArea[order][0] in tiles && tiles[freeArea[order][0]] == Tile(order, false)
      requires Coalesced(zone, Hold(tiles, freeArea[order][0]))
      modifies this, memMap, freeArea
      ensures h == old(freeArea[order][0]) && tiles == Hold(old(tiles), h)
      ensures LiveBlocks(tiles) == LiveBlocks(old(tiles))[h := order]
      ensures Valid() && freeArea[..] == old(freeArea[..])[order := old(freeArea[order][1..])]
    {
      hide LiveBlocks, Tiles, Coalesced, Rep, Hold;
      h := freeArea[order][0];
      ghost var mem1, free1 := memMap[..][h := Page(order, 0)], freeArea[..];
      RepSizes(zone, tiles, mem1, free1);
      memMap[h] := memMap[h].(order := order);
      memMap[h] := memMap[h].(refcount := 1);
      freeArea[order] := freeArea[order][1..];

      assert memMap[..] == mem1[h := Page(order, 1)];
      HoldTiles(zone, tiles, h);
      HoldLive(tiles, h);
      PopIsRemove(zone, tiles, mem1, free1, order);
      RepHold(zone, tiles, mem1, free1, h, memMap[..], freeArea[..]);
      tiles := Hold(tiles, h);
    }

    method AllocPages(order: nat) returns (r: Option<nat>)
      requires Valid()
      modifies this, memMap, freeArea
      ensures Valid()
      ensures r.None? ==> tiles == old(tiles) && memMap[..] == old(memMap[..]) && freeArea[..] == old(freeArea[..])
      ensures r.Some? ==> order <= zone.maxOrder && AllocStep(zone, old(tiles), tiles, r.value, order)
      ensures order <= zone.maxOrder ==>
                (r.None? <==> forall q: nat :: !FreeRun(zone, old(tiles), q, order))
      ensures r.Some? ==> exists i: nat ::
                (BestFit(old(freeArea[..]), order, i, r.value) && i <= zone.maxOrder < freeArea.Length &&
                 old(freeArea[i]) == [r.value] + freeArea[i] &&
                 (forall k :: order <= k < i ==> old(freeArea[k]) == [] && freeArea[k] == [r.value + Pow2(k)]) &&
                 (forall k :: 0 <= k < freeArea.Length && (k < order || i < k) ==> freeArea[k] == old(freeArea[k])))
    {
      hide Rep, Tiles, Coalesced, Aligned, Pow2, FreeRun, AfterSplit, LiveBlocks;
      SoundSizes();
      var i := order;
      while i <= zone.maxOrder
        invariant order <= i && (order < i ==> i <= zone.maxOrder + 1)
        invariant forall j :: order <= j < i ==> freeArea[j] == []
        invariant tiles == old(tiles) && memMap[..] == old(memMap[..]) && freeArea[..] == old(freeArea[..])
      {
        if |freeArea[i]| > 0 {
          ghost var h := SplitDown(order, i);
          var allocedPages := TakeFront(order);
          assert BestFit(old(freeArea[..]), order, i, h);
          AfterSplitIs(old(freeArea[..]), freeArea[..], order, i, h);
          return Some(allocedPages);
        }
        i := i + 1;
      }
      if order <= zone.maxOrder {
        EmptyListsNoRun(zone, tiles, memMap[..], freeArea[..], order);
      }
      return None;
    }

    /** The merging loop: while the buddy of the block at `start` is free and of the same
        order, take it off its list and go on with the joint block. */
    method MergeUp(start: nat) returns (p: nat)
      requires Freeing(zone, tiles, memMap[..], freeArea[..], start)
      modifies this, memMap, freeArea
      ensures Freeing(zone, tiles, memMap[..], freeArea[..], p) && BuddyBusy(zone, tiles, p)
      ensures LiveBlocks(tiles) - {p} == LiveBlocks(old(tiles)) - {start}
      ensures start in old(tiles) && p in tiles
      ensures old(tiles[start].order) <= tiles[p].order < freeArea.Length && p == RoundDown(start, tiles[p].order)
      ensures freeArea[..] == AfterMerge(old(freeArea[..]), start, old(tiles[start].order), tiles[p].order)
      ensures forall j: nat :: old(tiles[start].order) <= j < tiles[p].order ==>
                j < freeArea.Length && Xor(RoundDown(start, j), Pow2(j)) in old(freeArea[j])
    {
      hide Freeing, Rep, Tiles, Coalesced, Merge, BuddyBusy, LiveBlocks, AfterMerge;
      hide Aligned, Pow2, Xor, Remove, RoundDown;
      p := start;
      FreeingHead(zone, tiles, memMap[..], freeArea[..], p);
      ghost var lists, low := freeArea[..], tiles[p].order;
      RoundDownHead(zone, tiles, p);
      AfterMergeStart(lists, start, low);
      while memMap[p].order < zone.maxOrder
        invariant p in tiles && p < memMap.Length && memMap[p].order == tiles[p].order <= zone.maxOrder
        invariant Freeing(zone, tiles, memMap[..], freeArea[..], p)
        invariant LiveBlocks(tiles) - {p} == LiveBlocks(old(tiles)) - {start}
        invariant low <= tiles[p].order && p == RoundDown(start, tiles[p].order)
        invariant freeArea[..] == AfterMerge(lists, start, low, tiles[p].order)
        invariant forall j: nat :: low <= j < tiles[p].order ==>
                    j < |lists| && Xor(RoundDown(start, j), Pow2(j)) in lists[j]
        decreases zone.maxOrder - memMap[p].order
      {
        var buddyPage := GetBuddy(p, memMap[p].order);
        FreeingHead(zone, tiles, memMap[..], freeArea[..], p);
        FreeingTest(zone, tiles, memMap[..], freeArea[..], p, buddyPage);
        if memMap[buddyPage].order != memMap[p].order || memMap[buddyPage].refcount != 0 {
          return;
        }
        FreeingRound(zone, tiles, memMap[..], freeArea[..], p, buddyPage);
        JointBlockAround(zone, tiles, p, buddyPage, start);
        AfterMergeIs(lists, start, low, tiles[p].order);
        AfterMergeRound(lists, start, low, tiles[p].order);
        freeArea[memMap[p].order] := Remove(freeArea[memMap[p].order], buddyPage);
        tiles := Merge(tiles, if buddyPage < p then buddyPage else p, true);
        if p > buddyPage {
          p := buddyPage;
        }
        memMap[p] := memMap[p].(order := memMap[p].order + 1);
        FreeingHead(zone, tiles, memMap[..], freeArea[..], p);
      }
      TopBuddyBusy(zone, tiles, p);
    }

    /** The second part of `free_pages`, once the reference count is 0: the block is merged and
        the joint block goes to the front of its list. */
    method Release(start: nat)
      requires Freeing(zone, tiles, memMap[..], freeArea[..], start)
      modifies this, memMap, freeArea
      ensures Valid() && start in old(tiles) && LiveBlocks(tiles) == LiveBlocks(old(tiles)) - {start}
      ensures var low, was, now := old(tiles[start].order), old(freeArea[..]), freeArea[..];
                exists k: nat ::
                  (low <= k < |was| == |now| &&
                   RoundDown(start, k) in tiles && tiles[RoundDown(start, k)] == Tile(k, false) &&
                   now[k] == [RoundDown(start, k)] + was[k] &&
                   (forall j :: low <= j < k ==>
                      var buddy := Xor(RoundDown(start, j), Pow2(j));
                      buddy in was[j] && now[j] == Remove(was[j], buddy)) &&
                   (forall j :: 0 <= j < |now| && (j < low || k < j) ==> now[j] == was[j]))
    {
      hide Freeing, Rep, Tiles, Coalesced, Tilings.Release, LiveBlocks, AfterMerge, Xor, Pow2, Remove, RoundDown;
      FreeingHead(zone, tiles, memMap[..], freeArea[..], start);
      ghost var low, was := tiles[start].order, freeArea[..];
      var p := MergeUp(start);
      FreeingHead(zone, tiles, memMap[..], freeArea[..], p);
      FreeingDone(zone, tiles, memMap[..], freeArea[..], p);
      ghost var k := tiles[p].order;
      ReleasedTile(tiles, p);
      freeArea[memMap[p].order] := [p] + freeArea[memMap[p].order];
      tiles := Tilings.Release(tiles, p);
      SoundIntro();
      FreedLists(was, freeArea[..], start, low, k);
    }

    /** A page that is not the head of a block in use is left alone, whatever its stale fields. */
    method FreePages(page: Option<nat>)
      requires Valid() && (page.Some? ==> page.value < zone.numPages)
      modifies this, memMap, freeArea
      ensures Valid()
      ensures page.Some? && page.value in LiveBlocks(old(tiles)) ==> FreeStep(old(tiles), tiles, page.value)
      ensures page.Some? && page.value in LiveBlocks(old(tiles)) ==>
                var low, was, now := LiveBlocks(old(tiles))[page.value], old(freeArea[..]), freeArea[..];
                exists k: nat ::
                  (low <= k < |was| == |now| &&
                   RoundDown(page.value, k) in tiles && tiles[RoundDown(page.value, k)] == Tile(k, false) &&
                   now[k] == [RoundDown(page.value, k)] + was[k] &&
                   (forall j :: low <= j < k ==>
                      var buddy := Xor(RoundDown(page.value, j), Pow2(j));
                      buddy in was[j] && now[j] == Remove(was[j], buddy)) &&
                   (forall j :: 0 <= j < |now| && (j < low || k < j) ==> now[j] == was[j]))
      ensures page.None? || page.value !in LiveBlocks(old(tiles)) ==>
                tiles == old(tiles) && memMap[..] == old(memMap[..]) && freeArea[..] == old(freeArea[..])
    {
      hide Freeing, Rep, Tiles, Coalesced, LiveBlocks, Xor, Pow2, Remove, RoundDown;
      SoundSizes();
      if page.Some? { LiveExactly(page.value); }
      if page.None? || memMap[page.value].refcount == 0 { return; }
      memMap[page.value] := memMap[page.value].(refcount := 0);
      FreeingStart(old(memMap[..]), page.value);
      Release(page.value);
    }

    lemma LiveExactly(p: nat)
      requires Sound() && p < zone.numPages
      ensures p < memMap.Length && (memMap[p].refcount == 0 <==> p !in LiveBlocks(tiles))
    {
    }

    lemma FreeingStart(mem: seq<Page>, p: nat)
      requires zone.Valid() && Tiles(zone, tiles) && Coalesced(zone, tiles) && Rep(zone, tiles, mem, freeArea[..])
      requires p < |mem| && mem[p].refcount != 0 && memMap[..] == mem[p := mem[p].(refcount := 0)]
      ensures Freeing(zone, tiles, memMap[..], freeArea[..], p)
      ensures p in tiles && p in LiveBlocks(tiles) && LiveBlocks(tiles)[p] == tiles[p].order <= zone.maxOrder
    {
    }

    /** The recomputation of `order` after a full overlap: it finds the largest order to which
        `offset` is aligned, and the "ERROR ORDER" exit is never taken. */
    method OrderAt(offset: nat) returns (order: nat)
      requires 0 < offset < Pow2(zone.maxOrder)
      ensures order < zone.maxOrder && Aligned(offset, order) && !Aligned(offset, order + 1)
    {
      var base: nat := 0;
      AlignedZero(zone.maxOrder);
      order := zone.maxOrder - 1;
      while true
        invariant order < zone.maxOrder && Aligned(base, order + 1)
        invariant base < offset < base + Pow2(order + 1)
        decreases order
      {
        AlignedWeaken(base, order, order + 1);
        AlignedShift(base, order);
        if offset == base + Pow2(order) {
          break;
        } else if offset > base + Pow2(order) {
          base := base + Pow2(order);
        }
        order := order - 1;
      }
    }

    /** The search through `freeArea[order]` for the block that starts at `head`. */
    method Search(order: nat, head: nat) returns (found: bool)
      requires order < freeArea.Length
      ensures found <==> head in freeArea[order]
    {
      var cur := 0;
      while cur < |freeArea[order]|
        invariant cur <= |freeArea[order]| && head !in freeArea[order][..cur]
      {
        if freeArea[order][cur] == head { return true; }
        cur := cur + 1;
      }
      return false;
    }

    /** Full overlap: the block is marked in use and leaves its free list. */
    method TakeWhole(head: nat, order: nat)
      requires Sound() && head in tiles && tiles[head] == Tile(order, false)
      modifies this, memMap, freeArea
      ensures tiles == Hold(old(tiles), head) && Sound()
      ensures order < freeArea.Length && freeArea[..] == old(freeArea[..])[order := Remove(old(freeArea[order]), head)]
    {
      ghost var mem0, free0 := memMap[..], freeArea[..];
      assert order < freeArea.Length && head < memMap.Length;
      HoldTiles(zone, tiles, head);
      RepHold(zone, tiles, mem0, free0, head, mem0[head := Page(order, 1)], free0[order := Remove(free0[order], head)]);
      hide Rep, Tiles, Remove;
      memMap[head] := memMap[head].(refcount := 1);
      memMap[head] := memMap[head].(order := order);
      freeArea[order] := Remove(freeArea[order], head);
      assert memMap[..] == mem0[head := Page(order, 1)];
      tiles := Hold(tiles, head);
    }

    /** Partial overlap: the block is replaced by its two halves on the next lower list. */
    method TakeApart(head: nat, order: nat)
      requires Sound() && head in tiles && tiles[head] == Tile(order, false) && order > 0
      modifies this, memMap, freeArea
      ensures tiles == Split(old(tiles), head, false, false) && Sound()
      ensures order < freeArea.Length
      ensures freeArea[..] == old(freeArea[..])[order := Remove(old(freeArea[order]), head)]
                                [order - 1 := [head, head + Pow2(order - 1)] + old(freeArea[order - 1])]
    {
      hide Sound, Remove, Pow2, Xor;
      ghost var mem0, free0 := memMap[..], freeArea[..];
      ghost var m := TakeApartSound(head, order);
      freeArea[order] := Remove(freeArea[order], head);
      memMap[head] := memMap[head].(order := order - 1);
      var buddyPage := GetBuddy(head, order - 1);
      memMap[buddyPage] := memMap[buddyPage].(order := order - 1);
      freeArea[order - 1] := [buddyPage] + freeArea[order - 1];
      freeArea[order - 1] := [head] + freeArea[order - 1];
      assert freeArea[order - 1] == [head, m] + free0[order - 1];
      assert memMap[..] == mem0[head := Page(order - 1, mem0[head].refcount)][m := Page(order - 1, 0)];
      assert freeArea[..] == free0[order := Remove(free0[order], head)][order - 1 := [head, m] + free0[order - 1]];
      tiles := Split(tiles, head, false, false);
      SoundIntro();
    }

    lemma SoundIntro()
      requires zone.Valid() && Tiles(zone, tiles) && Rep(zone, tiles, memMap[..], freeArea[..])
      ensures Sound()
    {
    }

    /** What splitting a listed block will make of the fields. */
    lemma TakeApartSound(head: nat, order: nat) returns (m: nat)
      requires Sound() && head in tiles && tiles[head] == Tile(order, false) && order > 0
      ensures order < freeArea.Length && head < memMap.Length && zone.Valid()
      ensures m == head + Pow2(order - 1) == Xor(head, Pow2(order - 1)) < memMap.Length && memMap[m].refcount == 0
      ensures Tiles(zone, Split(tiles, head, false, false))
      ensures Rep(zone, Split(tiles, head, false, false),
                  memMap[..][head := Page(order - 1, memMap[head].refcount)][m := Page(order - 1, 0)],
                  freeArea[..][order := Remove(freeArea[order], head)][order - 1 := [head, m] + freeArea[order - 1]])
    {
      BuddyOfHalf(zone, tiles, head);
      m := head + Pow2(order - 1);
      SplitTiles(zone, tiles, head, false, false);
      RepSplit(zone, tiles, memMap[..], freeArea[..], head,
               memMap[..][head := Page(order - 1, memMap[head].refcount)][m := Page(order - 1, 0)],
               freeArea[..][order := Remove(freeArea[order], head)][order - 1 := [head, m] + freeArea[order - 1]]);
    }

    /** The order for the next search, recomputed from the new start page. */
    method NextOrderAt(startPfn: nat) returns (order: nat)
      requires zone.Valid()
      ensures NextOrder(zone, startPfn, order)
    {
      var offset := startPfn % Pow2(zone.maxOrder);
      if offset != 0 {
        order := OrderAt(offset);
      } else {
        order := zone.maxOrder;
      }
      OffsetOrder(zone, startPfn, order);
    }

    lemma LoopStart(lo: nat, hi: nat)
      requires Valid()
      ensures zone.Valid() && Looping(zone, tiles, tiles, lo, lo, hi, zone.maxOrder)
    {
      if lo <= hi { Start(zone, tiles, lo, hi); }
    }

    lemma SoundLists()
      requires Sound()
      ensures ListsFree(zone, tiles, freeArea[..])
    {
    }

    lemma SearchMeaning(order: nat, s: nat)
      requires Sound() && order <= zone.maxOrder
      ensures freeArea.Length == zone.maxOrder + 1 && zone.Valid()
      ensures var h := RoundDown(s, order);
        h in freeArea[order] <==> h in tiles && tiles[h] == Tile(order, false)
    {
    }

    /** Reserve the pages of `size` bytes at `base`. The result is false where the program
        prints "Not found" and exits. */
    method MemoryReserve(base: nat, size: nat) returns (ok: bool)
      requires Valid() && zone.numPages < TWO_TO_THE_32
      modifies this, memMap, freeArea
      ensures Sound()
      ensures var lo, hi := StartPfn(base), EndPfn(base, size);
        && (ok ==> Finished(zone, old(tiles), tiles, lo, hi))
        && (!ok ==> lo <= hi && !TopsFree(zone, old(tiles), lo, hi + 1))
        && (ok ==> ListsFinished(zone, old(tiles), old(freeArea[..]), freeArea[..], lo, hi))
    {
      hide Sound, Looping, Finished, Coalesced, Carved, TopsFree, RoundDown, Pow2, Zone.Valid, Aligned;
      hide ListsFree, Ordering, ListsFinished, Remove;
      var startPfn: nat := StartPfn(base);
      var endPfn: nat := EndPfn(base, size);
      var order: nat := zone.maxOrder;
      ghost var t := tiles;
      ghost var lo: nat := startPfn;
      ghost var lists := freeArea[..];
      LoopStart(lo, endPfn);
      SoundLists();
      OrderStart(zone, t, lists, lo, endPfn);
      while true
        invariant Sound() && order <= zone.maxOrder && ListsFree(zone, tiles, freeArea[..])
        invariant Ordering(zone, lists, freeArea[..], lo, startPfn, endPfn, order)
        invariant Looping(zone, t, tiles, lo, startPfn, endPfn, order)
        decreases endPfn - startPfn, order
      {
        SearchMeaning(order, startPfn);
        ghost var u, now := tiles, freeArea[..];
        var pageOrderHeadPfn := RoundDown(startPfn, order);
        var found := Search(order, pageOrderHeadPfn);
        if found {
          if pageOrderHeadPfn == startPfn && endPfn >= pageOrderHeadPfn + Pow2(order) - 1 {
            TakeWhole(pageOrderHeadPfn, order);
            ghost var s0, o0 := startPfn, order;
            startPfn := pageOrderHeadPfn + Pow2(order);
            if startPfn <= endPfn {
              order := NextOrderAt(startPfn);
            }
            LoopTake(zone, t, u, lo, s0, endPfn, o0, order);
            OrderTake(zone, t, u, lo, s0, endPfn, o0, order, lists, now);
          } else {
            LoopSplit(zone, t, u, lo, startPfn, endPfn, order);
            OrderSplit(zone, t, u, lo, startPfn, endPfn, order, lists, now);
            TakeApart(pageOrderHeadPfn, order);
            order := order - 1;
          }
        } else {
          LoopMiss(zone, t, u, lo, startPfn, endPfn, order);
          OrderMiss(zone, t, u, lo, startPfn, endPfn, order, lists, now);
        }
        SoundLists();
        if startPfn > endPfn {
          return true;
        }
        if !found {
          return false;
        }
      }
    }
  }
}

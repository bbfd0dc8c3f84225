/** Calls in a row, with the pages they return: the first allocation, an allocation after a
    free, and the main program of `ex31`. */
module BuddyRuns {
  import opened Bits
  import opened BuddyAllocator
  import opened BuddyTheorems
  import opened PageLists
  import opened Sequences
  import opened Tilings
  import opened Wrappers

  /** On fresh memory page 0 is at the front of the MAX_ORDER list. */
  lemma FreshFront(z: Zone, mem: seq<Page>, free: seq<seq<nat>>)
    requires z.Valid() && Rep(z, Initial(z), mem, free) && Ascending(free[z.maxOrder])
    ensures free[z.maxOrder] != [] && free[z.maxOrder][0] == 0
  {
    AlignedZero(z.maxOrder);
    assert 0 in Initial(z) && 0 in free[z.maxOrder];
  }

  lemma FreshRun(z: Zone, order: nat)
    requires z.Valid() && order <= z.maxOrder
    ensures FreeRun(z, Initial(z), 0, order)
  {
    AlignedZero(z.maxOrder);
    InitialTiles(z);
    ListedBlockIsRun(z, Initial(z), 0, order);
  }

  /** The first allocation of any order returns page 0. */
  method FirstPage(z: Zone, order: nat) returns (r: Option<nat>)
    requires z.Valid() && order <= z.maxOrder
    ensures r == Some(0)
  {
    hide Tiles, Coalesced, FreeRun, Initial, Rep, Aligned, Pow2, LiveBlocks;
    var a := new Allocator(z);
    FreshFront(z, a.memMap[..], a.freeArea[..]);
    FreshRun(z, order);
    ghost var lists := a.freeArea[..];
    r := a.AllocPages(order);
    ghost var i: nat :| BestFit(lists, order, i, r.value);
    assert i == z.maxOrder;
  }

  /** Right after a free that merges nothing, an allocation of that order returns the block. */
  method FreeThenAlloc(a: Allocator, page: nat, order: nat) returns (r: Option<nat>)
    requires a.Valid() && page < a.zone.numPages && page in LiveBlocks(a.tiles)
    requires LiveBlocks(a.tiles)[page] == order && page in a.tiles && BuddyBusy(a.zone, a.tiles, page)
    modifies a, a.memMap, a.freeArea
    ensures a.Valid() && r == Some(page) && LiveBlocks(a.tiles) == LiveBlocks(old(a.tiles))
  {
    hide Tiles, Coalesced, Rep, Aligned, Pow2, FreeRun, RoundDown, Xor, Remove, BuddyBusy;
    ghost var t := a.tiles;
    a.FreePages(Some(page));
    ghost var u, lists := a.tiles, a.freeArea[..];
    ghost var k: nat :| order <= k < |lists| && RoundDown(page, k) in u && u[RoundDown(page, k)] == Tile(k, false)
      && lists[k] == [RoundDown(page, k)] + old(a.freeArea[..])[k];
    NothingMerged(a.zone, t, u, page, k);
    FreeBlockRun(a.zone, u, page);
    r := a.AllocPages(order);
    ghost var i: nat :| BestFit(lists, order, i, r.value);
  }

  lemma FreeBlockRun(z: Zone, u: Tiling, p: nat)
    requires Tiles(z, u) && p in u && !u[p].live
    ensures u[p].order <= z.maxOrder && FreeRun(z, u, p, u[p].order)
  {
    ListedBlockIsRun(z, u, p, u[p].order);
  }

  /** With a busy buddy the freed block is the joint block. */
  lemma NothingMerged(z: Zone, t: Tiling, u: Tiling, p: nat, k: nat)
    requires Tiles(z, t) && Coalesced(z, t) && Tiles(z, u) && Coalesced(z, u) && FreeStep(t, u, p)
    requires p in t && BuddyBusy(z, t, p)
    requires RoundDown(p, k) in u && u[RoundDown(p, k)] == Tile(k, false)
    ensures k == LiveBlocks(t)[p] && RoundDown(p, k) == p && u[p] == Tile(k, false)
  {
    HoldTiles(z, t, p);
    ReleaseCoalesced(z, t, p);
    HoldLive(t, p);
    Canonical(z, u, Release(t, p));
    ReleasedTile(t, p);
    RoundDownIs(p, k);
    BlockUnique(z, u, p, p, RoundDown(p, k));
  }

  // ----- the main program of ex31 -----

  const SOURCE_ZONE: Zone := Zone(10, 0x28_0000)

  /** The free lists of fresh memory. */
  ghost predicate FreshLists(lists: seq<seq<nat>>) {
    |lists| == 11 && (forall k :: 0 <= k < 10 ==> lists[k] == []) && lists[10] != [] && lists[10][0] == 0
  }

  /** ... after blocks of two pages were taken at pages 0, 2 and 4. */
  ghost predicate ThreeTaken(was: seq<seq<nat>>, now: seq<seq<nat>>) {
    && |now| == |was| == 11 && now[0] == [] && now[1] == [6] && now[2] == []
    && (forall k :: 3 <= k < 10 ==> now[k] == [Pow2(k)]) && was[10] == [0] + now[10]
  }

  method Start() returns (a: Allocator)
    ensures a.Valid() && fresh(a) && fresh(a.memMap) && fresh(a.freeArea)
    ensures a.zone == SOURCE_ZONE && a.tiles == Initial(SOURCE_ZONE) && FreshLists(a.freeArea[..])
  {
    hide Tiles, Coalesced, Initial, Rep;
    SourceZone();
    a := new Allocator(SOURCE_ZONE);
    FreshFront(SOURCE_ZONE, a.memMap[..], a.freeArea[..]);
  }

  /** The three allocations return pages 0, 2 and 4. */
  method AllocThree(a: Allocator) returns (p1: Option<nat>, p2: Option<nat>, p3: Option<nat>)
    requires a.Valid() && a.zone == SOURCE_ZONE && a.tiles == Initial(SOURCE_ZONE) && FreshLists(a.freeArea[..])
    modifies a, a.memMap, a.freeArea
    ensures a.Valid() && p1 == Some(0) && p2 == Some(2) && p3 == Some(4)
    ensures LiveBlocks(a.tiles) == map[0 := 1, 2 := 1, 4 := 1]
    ensures ThreeTaken(old(a.freeArea[..]), a.freeArea[..])
  {
    hide Tiles, Coalesced, Rep, Aligned, FreeRun, Initial, LiveBlocks;
    SmallPowers();
    FreshLive();
    p1 := TakeFrom(a, 10);
    p2 := TakeFrom(a, 1);
    p3 := TakeFrom(a, 2);
  }

  /** An allocation of two pages, given the first order whose list is not empty. */
  method TakeFrom(a: Allocator, ghost i: nat) returns (r: Option<nat>)
    requires a.Valid() && a.zone == SOURCE_ZONE && 1 <= i < a.freeArea.Length == 11 && a.freeArea[i] != []
    requires forall j :: 1 <= j < i ==> a.freeArea[j] == []
    modifies a, a.memMap, a.freeArea
    ensures a.Valid() && r == Some(old(a.freeArea[i][0]))
    ensures LiveBlocks(a.tiles) == LiveBlocks(old(a.tiles))[r.value := 1]
    ensures a.freeArea[i] == old(a.freeArea[i])[1..]
    ensures forall k :: 1 <= k < i ==> a.freeArea[k] == [r.value + Pow2(k)]
    ensures forall k :: 0 <= k < 11 && (k < 1 || i < k) ==> a.freeArea[k] == old(a.freeArea[k])
  {
    hide Tiles, Coalesced, Rep, Aligned, FreeRun, LiveBlocks, Pow2;
    ghost var lists := a.freeArea[..];
    FrontRun(a.zone, a.tiles, a.memMap[..], lists, i);
    r := a.AllocPages(1);
    ghost var n: nat :| BestFit(lists, 1, n, r.value) && n < |lists| && lists[n] == [r.value] + a.freeArea[n] &&
      (forall k :: 1 <= k < n ==> lists[k] == [] && a.freeArea[k] == [r.value + Pow2(k)]) &&
      (forall k :: 0 <= k < 11 && (k < 1 || n < k) ==> a.freeArea[k] == lists[k]);
    FirstNonempty(lists, i, n, r.value);
  }

  lemma FirstNonempty(lists: seq<seq<nat>>, i: nat, n: nat, h: nat)
    requires BestFit(lists, 1, n, h) && 1 <= i < |lists| && lists[i] != [] && forall j :: 1 <= j < i ==> lists[j] == []
    ensures n == i
  {
  }

  lemma FrontRun(z: Zone, t: Tiling, mem: seq<Page>, free: seq<seq<nat>>, i: nat)
    requires Tiles(z, t) && Rep(z, t, mem, free) && 1 <= i <= z.maxOrder && free[i] != []
    ensures FreeRun(z, t, free[i][0], 1)
  {
    assert free[i][0] in free[i];
    ListedBlockIsRun(z, t, free[i][0], 1);
  }

  lemma FreshLive()
    ensures LiveBlocks(Initial(SOURCE_ZONE)) == map[]
  {
  }

  lemma SmallPowers()
    ensures Pow2(0) == 1 && Pow2(1) == 2 && Pow2(2) == 4 && Pow2(3) == 8
  {
  }

  /** Page 0 is freed: its buddy is in use, so it goes to the front of its own list. */
  method FreeFirst(a: Allocator, ghost lists: seq<seq<nat>>)
    requires a.Valid() && a.zone == SOURCE_ZONE && LiveBlocks(a.tiles) == map[0 := 1, 2 := 1, 4 := 1]
    requires ThreeTaken(lists, a.freeArea[..])
    modifies a, a.memMap, a.freeArea
    ensures a.Valid() && LiveBlocks(a.tiles) == map[2 := 1, 4 := 1]
    ensures a.freeArea[..] == old(a.freeArea[..])[1 := [0, 6]]
  {
    hide Tiles, Coalesced, Rep, Aligned, Initial, LiveBlocks, RoundDown, Xor, Pow2, Remove;
    SmallNumbers();
    ghost var was := a.freeArea[..];
    a.FreePages(Some(0));
    ghost var k: nat :| 1 <= k < 11 && RoundDown(0, k) in a.tiles && a.tiles[RoundDown(0, k)] == Tile(k, false)
      && a.freeArea[k] == [RoundDown(0, k)] + was[k]
      && (forall j :: 1 <= j < k ==> Xor(RoundDown(0, j), Pow2(j)) in was[j]
                                     && a.freeArea[j] == Remove(was[j], Xor(RoundDown(0, j), Pow2(j))))
      && (forall j :: 0 <= j < 11 && (j < 1 || k < j) ==> a.freeArea[j] == was[j]);
    assert k == 1;
    assert [0] + [6] == [0, 6];
    assert a.freeArea[..] == was[1 := [0, 6]];
  }

  /** Page 2 is freed and merged with page 0. */
  method FreeSecond(a: Allocator)
    requires a.Valid() && a.zone == SOURCE_ZONE && LiveBlocks(a.tiles) == map[2 := 1, 4 := 1]
    requires a.freeArea.Length == 11 && a.freeArea[1] == [0, 6] && a.freeArea[2] == []
    modifies a, a.memMap, a.freeArea
    ensures a.Valid() && LiveBlocks(a.tiles) == map[4 := 1]
    ensures a.freeArea[..] == old(a.freeArea[..])[1 := [6]][2 := [0]]
  {
    hide Tiles, Coalesced, Rep, Aligned, Initial, LiveBlocks, RoundDown, Xor, Pow2, Remove;
    SmallNumbers();
    ghost var was := a.freeArea[..];
    a.FreePages(Some(2));
    ghost var k: nat :| 1 <= k < 11 && RoundDown(2, k) in a.tiles && a.tiles[RoundDown(2, k)] == Tile(k, false)
      && a.freeArea[k] == [RoundDown(2, k)] + was[k]
      && (forall j :: 1 <= j < k ==> Xor(RoundDown(2, j), Pow2(j)) in was[j]
                                     && a.freeArea[j] == Remove(was[j], Xor(RoundDown(2, j), Pow2(j))))
      && (forall j :: 0 <= j < 11 && (j < 1 || k < j) ==> a.freeArea[j] == was[j]);
    if k == 1 { NoPair(a.zone, a.tiles, a.memMap[..], a.freeArea[..]); }
    assert k == 2 && [0] + [] == [0];
    assert a.freeArea[..] == was[1 := [6]][2 := [0]];
  }

  /** Two free buddies of one order would be mergeable. */
  lemma NoPair(z: Zone, t: Tiling, mem: seq<Page>, free: seq<seq<nat>>)
    requires Tiles(z, t) && Coalesced(z, t) && Rep(z, t, mem, free) && z.maxOrder > 1
    requires 2 in t && t[2] == Tile(1, false)
    ensures 0 !in free[1]
  {
    SmallPowers();
    AlignedZero(2);
    if 0 in free[1] { assert Mergeable(z, t, 0); }
  }

  /** Page 4 is freed and everything merges: the lists are those of fresh memory. */
  method FreeThird(a: Allocator, ghost lists: seq<seq<nat>>)
    requires a.Valid() && a.zone == SOURCE_ZONE && LiveBlocks(a.tiles) == map[4 := 1]
    requires FreshLists(lists) && a.freeArea.Length == 11 && lists[10] == [0] + a.freeArea[10]
    modifies a, a.memMap, a.freeArea
    ensures a.Valid() && a.tiles == Initial(SOURCE_ZONE) && a.freeArea[..] == lists
  {
    hide Tiles, Coalesced, Rep, Aligned, Initial, LiveBlocks, RoundDown, Xor, Pow2, Remove;
    SmallNumbers();
    SourceZone();
    ghost var was := a.freeArea[..];
    a.FreePages(Some(4));
    assert map[4 := 1] - {4} == map[];
    AllFreeIsInitial(a.zone, a.tiles);
    ghost var k: nat :| 1 <= k < 11 && RoundDown(4, k) in a.tiles && a.tiles[RoundDown(4, k)] == Tile(k, false)
      && a.freeArea[k] == [RoundDown(4, k)] + was[k]
      && (forall j :: 1 <= j < k ==> Xor(RoundDown(4, j), Pow2(j)) in was[j]
                                     && a.freeArea[j] == Remove(was[j], Xor(RoundDown(4, j), Pow2(j))))
      && (forall j :: 0 <= j < 11 && (j < 1 || k < j) ==> a.freeArea[j] == was[j]);
    OnlyTop(RoundDown(4, k));
    FirstHead(4, k);
    EmptyBelow(a.memMap[..], a.freeArea[..]);
  }

  lemma OnlyTop(h: nat)
    ensures h in Initial(SOURCE_ZONE) ==> Initial(SOURCE_ZONE)[h] == Tile(10, false)
  {
  }

  lemma HeadListed(s: seq<nat>)
    ensures s != [] ==> s[0] in s
  {
  }

  lemma EmptyBelow(mem: seq<Page>, free: seq<seq<nat>>)
    requires Rep(SOURCE_ZONE, Initial(SOURCE_ZONE), mem, free)
    ensures |free| == 11 && forall k :: 0 <= k < 10 ==> free[k] == []
  {
    forall k: nat | k < 10 ensures free[k] == [] {
      HeadListed(free[k]);
    }
  }

  lemma SmallNumbers()
    ensures Pow2(1) == 2 && Pow2(2) == 4 && Xor(0, 2) == 2 && Xor(2, 2) == 0 && Xor(0, 4) == 4
    ensures RoundDown(0, 1) == 0 && RoundDown(2, 1) == 2 && RoundDown(2, 2) == 0
    ensures Remove([0, 6], 0) == [6]
  {
    hide Aligned, RoundDown, Xor, Pow2, Remove;
    SmallPowers();
    SmallAligned();
    SmallXors();
    SmallHeads();
    SmallRemove();
  }

  lemma SmallRemove()
    ensures Remove([0, 6], 0) == [6]
  {
    assert [0, 6][1..] == [6] && [6][1..] == [];
  }

  lemma SmallXors()
    ensures Xor(0, 2) == 2 && Xor(2, 2) == 0 && Xor(0, 4) == 4
  {
    hide Aligned, Xor, Pow2;
    SmallPowers();
    SmallAligned();
    XorFlip(0, 1);
    XorFlip(0, 2);
    XorFlip(2, 1);
  }

  lemma FirstHead(p: nat, k: nat)
    requires p < 8 && k >= 3
    ensures RoundDown(p, k) == 0
  {
    hide RoundDown, Aligned, Pow2;
    SmallPowers();
    AlignedZero(k);
    Pow2Monotone(3, k);
    RoundDownUnique(p, k, 0);
  }

  lemma SmallHeads()
    ensures RoundDown(0, 1) == 0 && RoundDown(2, 1) == 2 && RoundDown(2, 2) == 0
  {
    hide Aligned, RoundDown, Pow2;
    SmallPowers();
    SmallAligned();
    RoundDownUnique(0, 1, 0);
    RoundDownUnique(2, 1, 2);
    RoundDownUnique(2, 2, 0);
  }

  lemma SmallAligned()
    ensures Aligned(0, 1) && Aligned(0, 2) && Aligned(0, 3) && Aligned(2, 1) && !Aligned(2, 2)
  {
    AlignedZero(1);
    AlignedZero(2);
    AlignedZero(3);
    assert !Aligned(1, 1) && Aligned(1, 0);
  }

  /** `main` of `ex31`: the pages returned, and memory as fresh at the end, its lists included. */
  method Ex31Main() returns (p1: Option<nat>, p2: Option<nat>, p3: Option<nat>, a: Allocator)
    ensures p1 == Some(0) && p2 == Some(2) && p3 == Some(4)
    ensures a.Valid() && a.tiles == Initial(SOURCE_ZONE) && FreshLists(a.freeArea[..])
  {
    hide ThreeTaken, FreshLists, Allocator.Valid, Initial, LiveBlocks;
    a := Start();
    ghost var lists := a.freeArea[..];
    p1, p2, p3 := AllocThree(a);
    TakenLists(lists, a.freeArea[..]);
    FreeFirst(a, lists);
    FreeSecond(a);
    FreeThird(a, lists);
  }

  lemma TakenLists(was: seq<seq<nat>>, now: seq<seq<nat>>)
    requires ThreeTaken(was, now)
    ensures |was| == 11 && |now| == 11 && now[2] == [] && was[10] == [0] + now[10]
  {
  }
}

/** The order of the free lists while `memory_reserve` carves a page range out of them: below
    MAX_ORDER the new blocks stand in front of the old list, highest address first, and the
    MAX_ORDER list keeps its order. */
module ReservedLists {
  import opened Bits
  import opened PageLists
  import opened Reservation
  import opened Sequences
  import opened Tilings

  /** The elements of `s` that occur in `c`, in the order of `s`. */
  ghost function Among(s: seq<nat>, c: seq<nat>): (r: seq<nat>)
    ensures forall x :: x in r <==> x in s && x in c
  {
    if s == [] then [] else (if s[0] in c then [s[0]] else []) + Among(s[1..], c)
  }

  /** `now` is `was` with the elements of `front` before it. */
  ghost predicate Fronted(was: seq<nat>, now: seq<nat>, front: seq<nat>) {
    now == front + was
  }

  ghost function Front(was: seq<nat>, now: seq<nat>): seq<nat>
    requires |was| <= |now|
  {
    now[..|now| - |was|]
  }

  /** All blocks below `bound` that were added to the list are in front of it; with `g` left
      out, in descending order. */
  ghost predicate Added(was: seq<nat>, now: seq<nat>, g: nat, bound: nat) {
    && |was| <= |now| && Fronted(was, now, Front(was, now))
    && Descending(Remove(Front(was, now), g))
    && forall x :: x in Front(was, now) ==> x < bound
  }

  /** The lists inside the loop, while block `g` is the one looked at. */
  ghost predicate Carrying(z: Zone, was: seq<seq<nat>>, now: seq<seq<nat>>, g: nat, bound: nat) {
    && |was| == |now| == z.maxOrder + 1
    && now[z.maxOrder] == Among(was[z.maxOrder], now[z.maxOrder])
    && forall k :: 0 <= k < z.maxOrder ==> Added(was[k], now[k], g, bound)
  }

  /** The lists after a reservation of a nonempty range. */
  ghost predicate ListsReserved(z: Zone, was: seq<seq<nat>>, now: seq<seq<nat>>) {
    && |was| == |now| == z.maxOrder + 1
    && now[z.maxOrder] == Among(was[z.maxOrder], now[z.maxOrder])
    && forall k :: 0 <= k < z.maxOrder ==>
         |was[k]| <= |now[k]| && Fronted(was[k], now[k], Front(was[k], now[k])) && Descending(Front(was[k], now[k]))
  }

  // ----- removing from such lists -----

  lemma {:induction false} RemoveAppend(a: seq<nat>, b: seq<nat>, x: nat)
    ensures Remove(a + b, x) == Remove(a, x) + Remove(b, x)
  {
    if a == [] {
      assert a + b == b;
    } else {
      assert (a + b)[1..] == a[1..] + b;
      RemoveAppend(a[1..], b, x);
    }
  }

  lemma {:induction false} RemoveDescending(s: seq<nat>, x: nat)
    requires Descending(s)
    ensures Descending(Remove(s, x))
  {
    if s != [] {
      RemoveDescending(s[1..], x);
      if s[0] != x { DescendingCons(s[0], Remove(s[1..], x)); }
    }
  }

  lemma DescendingCons(x: nat, s: seq<nat>)
    requires Descending(s) && forall y :: y in s ==> y < x
    ensures Descending([x] + s)
  {
    assert forall i :: 0 <= i < |s| ==> s[i] in s;
  }

  lemma {:induction false} AmongSelf(s: seq<nat>, c: seq<nat>)
    requires forall x :: x in s ==> x in c
    ensures Among(s, c) == s
  {
    if s != [] { AmongSelf(s[1..], c); }
  }

  lemma {:induction false} AmongRemove(s: seq<nat>, c: seq<nat>, x: nat)
    ensures Among(s, Remove(c, x)) == Remove(Among(s, c), x)
  {
    if s != [] {
      AmongRemove(s[1..], c, x);
      RemoveAppend(if s[0] in c then [s[0]] else [], Among(s[1..], c), x);
      assert Remove([s[0]], x) == if s[0] == x then [] else [s[0]];
    }
  }

  /** Removing a block that is not in the old list takes it from the front. */
  lemma AddedRemove(was: seq<nat>, now: seq<nat>, g: nat, bound: nat)
    requires Added(was, now, g, bound) && g !in was
    ensures var now' := Remove(now, g);
      && |was| <= |now'| && Fronted(was, now', Front(was, now')) && Front(was, now') == Remove(Front(was, now), g)
  {
    RemoveAppend(Front(was, now), was, g);
    RemoveAbsent(was, g);
  }

  lemma AddedElsewhere(was: seq<nat>, now: seq<nat>, g: nat, g': nat, bound: nat)
    requires Added(was, now, g, bound) && g !in was
    ensures Added(was, Remove(now, g), g', bound)
    ensures g !in now ==> Remove(now, g) == now
  {
    AddedRemove(was, now, g, bound);
    RemoveDescending(Remove(Front(was, now), g), g');
    if g !in now { RemoveAbsent(now, g); }
  }

  lemma AddedPlain(was: seq<nat>, now: seq<nat>, g: nat, bound: nat)
    requires Added(was, now, g, bound) && g !in now
    ensures |was| <= |now| && Fronted(was, now, Front(was, now)) && Descending(Front(was, now))
    ensures forall x :: x in Front(was, now) ==> x in now && x < bound
  {
    RemoveAbsent(Front(was, now), g);
  }

  // ----- the steps of the loop -----

  lemma CarryStart(z: Zone, t: Tiling, was: seq<seq<nat>>, g: nat, bound: nat)
    requires ListsFree(z, t, was)
    ensures Carrying(z, was, was, g, bound)
  {
    AmongSelf(was[z.maxOrder], was[z.maxOrder]);
    forall k | 0 <= k < z.maxOrder ensures Added(was[k], was[k], g, bound) {
      assert Front(was[k], was[k]) == [];
    }
  }

  /** The block around `s` is on no old list below MAX_ORDER, and now on that of its order only. */
  lemma HeldBlock(z: Zone, t: Tiling, u: Tiling, lo: nat, s: nat, hi: nat, o: nat,
                  was: seq<seq<nat>>, now: seq<seq<nat>>, k: nat)
    requires Tiles(z, t) && AtBlock(z, t, u, lo, s, hi, o)
    requires ListsFree(z, t, was) && ListsFree(z, u, now) && k < z.maxOrder
    ensures RoundDown(s, o) !in was[k] && (k != o ==> RoundDown(s, o) !in now[k])
  {
    var g, top := RoundDown(s, o), RoundDown(s, z.maxOrder);
    BlockInTop(z, t, u, lo, s, hi, o);
    if g in was[k] { BlockUnique(z, t, g, g, top); }
  }

  lemma BlockInTop(z: Zone, t: Tiling, u: Tiling, lo: nat, s: nat, hi: nat, o: nat)
    requires AtBlock(z, t, u, lo, s, hi, o)
    ensures var g, top := RoundDown(s, o), RoundDown(s, z.maxOrder);
      && TopFree(z, t, top) && Aligned(top, z.maxOrder) && Aligned(g, o) && top <= g <= s < g + Pow2(o)
      && InBlock(t, top, g) && g + Pow2(o) <= top + Pow2(z.maxOrder)
  {
    hide Tiles, Carved, Coalesced, Aligned, RoundDown, ParentOut;
    var g, top := RoundDown(s, o), RoundDown(s, z.maxOrder);
    RoundDownIs(s, o);
    RoundDownIs(s, z.maxOrder);
    AlignedWeaken(top, o, z.maxOrder);
    if g < top { AlignedGap(g, top, o); }
    Nested(top, z.maxOrder, g, o);
  }

  /** A free block of the next lower order in the same MAX_ORDER block lies left of the block
      around `s`: to its right the free pages are coalesced. */
  lemma SmallerIsLeft(z: Zone, t: Tiling, u: Tiling, lo: nat, s: nat, hi: nat, o: nat, x: nat)
    requires Tiles(z, t) && AtBlock(z, t, u, lo, s, hi, o) && o > 0
    requires x in u && u[x] == Tile(o - 1, false) && x < RoundDown(s, z.maxOrder) + Pow2(z.maxOrder)
    ensures x < RoundDown(s, o)
  {
    var g, top := RoundDown(s, o), RoundDown(s, z.maxOrder);
    BlockInTop(z, t, u, lo, s, hi, o);
    if x > g {
      assert End(u, g) <= x;
      var q := RunRightOf(z, t, u, lo, s, hi, o, x);
      HoldTiles(z, u, g);
      var h := FreeRunInOneBlock(z, Hold(u, g), q, o);
      BlockUnique(z, Hold(u, g), x, x, h);
    }
  }

  lemma PageOfBlock(t: Tiling, h: nat, p: nat)
    requires h in t && !t[h].live && h <= p < h + Pow2(t[h].order)
    ensures FreePage(t, p)
  {
    assert InBlock(t, h, p);
  }

  lemma RunRightOf(z: Zone, t: Tiling, u: Tiling, lo: nat, s: nat, hi: nat, o: nat, x: nat) returns (q: nat)
    requires Tiles(z, t) && AtBlock(z, t, u, lo, s, hi, o)
    requires RoundDown(s, o) + Pow2(o) <= x < RoundDown(s, z.maxOrder) + Pow2(z.maxOrder)
    ensures q <= x < q + Pow2(o) && FreeRun(z, Hold(u, RoundDown(s, o)), q, o)
  {
    hide RoundDown, Aligned, Pow2, Tiles, FreePage, Hold, Coalesced;
    var g, top := RoundDown(s, o), RoundDown(s, z.maxOrder);
    BlockInTop(z, t, u, lo, s, hi, o);
    q := RoundDown(x, o);
    RoundDownIs(x, o);
    AlignedShift(g, o);
    RoundDownIs(s, z.maxOrder);
    AlignedWeaken(top, o, z.maxOrder);
    if q < g + Pow2(o) { AlignedGap(q, g + Pow2(o), o); }
    Nested(top, z.maxOrder, q, o);
    forall p | q <= p < q + Pow2(o) ensures FreePage(Hold(u, g), p) {
      PageOfBlock(t, top, p);
      HoldFree(z, u, g, p);
    }
  }

  /** Taking the block around `s` leaves all fronts in order. */
  lemma CarryTake(z: Zone, t: Tiling, u: Tiling, lo: nat, s: nat, hi: nat, o: nat,
                  was: seq<seq<nat>>, now: seq<seq<nat>>, bound: nat)
    requires Tiles(z, t) && AtBlock(z, t, u, lo, s, hi, o) && ListsFree(z, t, was) && ListsFree(z, u, now)
    requires Carrying(z, was, now, RoundDown(s, o), bound)
    ensures o < |now|
    ensures var now' := now[o := Remove(now[o], RoundDown(s, o))];
      ListsReserved(z, was, now') && forall g', bound' :: bound <= bound' ==> Carrying(z, was, now', g', bound')
  {
    hide Tiles, AtBlock, ListsFree, RoundDown;
    BlockOrder(z, t, u, lo, s, hi, o);
    var g := RoundDown(s, o);
    var now' := now[o := Remove(now[o], g)];
    AmongRemove(was[z.maxOrder], now[z.maxOrder], g);
    forall k | 0 <= k < z.maxOrder
      ensures |was[k]| <= |now'[k]| && Fronted(was[k], now'[k], Front(was[k], now'[k]))
      ensures Descending(Front(was[k], now'[k])) && forall x :: x in Front(was[k], now'[k]) ==> x < bound
    {
      HeldBlock(z, t, u, lo, s, hi, o, was, now, k);
      AddedRemove(was[k], now[k], g, bound);
      if k != o { RemoveAbsent(now[k], g); }
    }
    forall g': nat, bound': nat | bound <= bound' ensures Carrying(z, was, now', g', bound') {
      forall k | 0 <= k < z.maxOrder ensures Added(was[k], now'[k], g', bound') {
        RemoveDescending(Front(was[k], now'[k]), g');
      }
    }
  }

  lemma BlockOrder(z: Zone, t: Tiling, u: Tiling, lo: nat, s: nat, hi: nat, o: nat)
    requires AtBlock(z, t, u, lo, s, hi, o)
    ensures o <= z.maxOrder && RoundDown(s, o) in u && u[RoundDown(s, o)] == Tile(o, false)
  {
  }

  /** Splitting it puts the half that is not looked at next in front of its list. */
  lemma CarrySplit(z: Zone, t: Tiling, u: Tiling, lo: nat, s: nat, hi: nat, o: nat,
                   was: seq<seq<nat>>, now: seq<seq<nat>>)
    requires Tiles(z, t) && AtBlock(z, t, u, lo, s, hi, o) && ListsFree(z, t, was) && ListsFree(z, u, now) && o > 0
    requires Carrying(z, was, now, RoundDown(s, o), RoundDown(s, z.maxOrder) + Pow2(z.maxOrder))
    ensures o < |now|
    ensures var g := RoundDown(s, o);
      Carrying(z, was, now[o := Remove(now[o], g)][o - 1 := [g, g + Pow2(o - 1)] + now[o - 1]],
               RoundDown(s, o - 1), RoundDown(s, z.maxOrder) + Pow2(z.maxOrder))
  {
    hide Tiles, AtBlock, ListsFree, RoundDown, Pow2, Added, Among;
    BlockOrder(z, t, u, lo, s, hi, o);
    var g, bound := RoundDown(s, o), RoundDown(s, z.maxOrder) + Pow2(z.maxOrder);
    var now' := now[o := Remove(now[o], g)][o - 1 := [g, g + Pow2(o - 1)] + now[o - 1]];
    AmongRemove(was[z.maxOrder], now[z.maxOrder], g);
    HeldTop(z, t, u, lo, s, hi, o, now);
    forall k | 0 <= k < z.maxOrder ensures Added(was[k], now'[k], RoundDown(s, o - 1), bound) {
      CarrySplitAt(z, t, u, lo, s, hi, o, was, now, k);
    }
  }

  lemma HeldTop(z: Zone, t: Tiling, u: Tiling, lo: nat, s: nat, hi: nat, o: nat, now: seq<seq<nat>>)
    requires AtBlock(z, t, u, lo, s, hi, o) && ListsFree(z, u, now)
    ensures o < z.maxOrder ==> Remove(now[z.maxOrder], RoundDown(s, o)) == now[z.maxOrder]
  {
    if o < z.maxOrder { RemoveAbsent(now[z.maxOrder], RoundDown(s, o)); }
  }

  /** The list of order `k` after the split. */
  lemma CarrySplitAt(z: Zone, t: Tiling, u: Tiling, lo: nat, s: nat, hi: nat, o: nat,
                     was: seq<seq<nat>>, now: seq<seq<nat>>, k: nat)
    requires Tiles(z, t) && AtBlock(z, t, u, lo, s, hi, o) && ListsFree(z, t, was) && ListsFree(z, u, now) && o > 0
    requires k < z.maxOrder && k < |was| && k < |now|
    requires Added(was[k], now[k], RoundDown(s, o), RoundDown(s, z.maxOrder) + Pow2(z.maxOrder))
    ensures var g := RoundDown(s, o);
      Added(was[k], if k == o - 1 then [g, g + Pow2(o - 1)] + now[k] else if k == o then Remove(now[k], g) else now[k],
            RoundDown(s, o - 1), RoundDown(s, z.maxOrder) + Pow2(z.maxOrder))
  {
    hide Tiles, AtBlock, ListsFree, RoundDown, Pow2, Added, Front, Remove;
    var g, bound := RoundDown(s, o), RoundDown(s, z.maxOrder) + Pow2(z.maxOrder);
    HeldBlock(z, t, u, lo, s, hi, o, was, now, k);
    AddedElsewhere(was[k], now[k], g, RoundDown(s, o - 1), bound);
    if k == o - 1 {
      AddedPlain(was[k], now[k], g, bound);
      forall x | x in Front(was[k], now[k]) ensures x < g {
        ListedBelow(z, u, now, k, x);
        SmallerIsLeft(z, t, u, lo, s, hi, o, x);
      }
      HalvesOf(z, t, u, lo, s, hi, o);
      PushHalves(was[k], now[k], g, g + Pow2(o - 1), RoundDown(s, o - 1), bound);
    }
  }

  lemma ListedBelow(z: Zone, u: Tiling, now: seq<seq<nat>>, k: nat, x: nat)
    requires ListsFree(z, u, now) && k < |now| && x in now[k]
    ensures x in u && u[x] == Tile(k, false)
  {
  }

  /** The next block looked at is one of the halves, and both lie in the MAX_ORDER block. */
  lemma HalvesOf(z: Zone, t: Tiling, u: Tiling, lo: nat, s: nat, hi: nat, o: nat)
    requires AtBlock(z, t, u, lo, s, hi, o) && o > 0
    ensures var g, g' := RoundDown(s, o), RoundDown(s, o - 1);
      && (g' == g || g' == g + Pow2(o - 1))
      && g + Pow2(o - 1) < RoundDown(s, z.maxOrder) + Pow2(z.maxOrder)
  {
    BlockInTop(z, t, u, lo, s, hi, o);
    hide AtBlock, Aligned, RoundDown;
    var g := RoundDown(s, o);
    AlignedWeaken(g, o - 1, o);
    AlignedShift(g, o - 1);
    RoundDownUnique(s, o - 1, if s < g + Pow2(o - 1) then g else g + Pow2(o - 1));
  }

  lemma PushHalves(was: seq<nat>, now: seq<nat>, g: nat, m: nat, g': nat, bound: nat)
    requires |was| <= |now| && Fronted(was, now, Front(was, now)) && Descending(Front(was, now))
    requires (forall x :: x in Front(was, now) ==> x < g) && g < m < bound && (g' == g || g' == m)
    ensures Added(was, [g, m] + now, g', bound)
  {
    var front := Front(was, now);
    assert Front(was, [g, m] + now) == [g, m] + front;
    RemoveAppend([g, m], front, g');
    RemoveAbsent(front, g');
    assert [g, m][1..] == [m] && [m][1..] == [];
    assert Remove([g, m], g') == if g' == g then [m] else [g];
    DescendingCons(if g' == g then m else g, front);
  }

  // ----- the loop of `memory_reserve` -----

  /** What holds of the lists at the head of the loop. */
  ghost predicate Ordering(z: Zone, was: seq<seq<nat>>, now: seq<seq<nat>>, lo: nat, s: nat, hi: nat, o: nat) {
    if hi < lo then now == was
    else Carrying(z, was, now, RoundDown(s, o), RoundDown(s, z.maxOrder) + Pow2(z.maxOrder))
  }

  /** What holds of them when the loop ends normally; an empty range may have split one block. */
  ghost predicate ListsFinished(z: Zone, t: Tiling, was: seq<seq<nat>>, now: seq<seq<nat>>, lo: nat, hi: nat) {
    if hi < lo then
      var top := RoundDown(lo, z.maxOrder);
      if TopFree(z, t, top) then
        && 0 < z.maxOrder < |was|
        && now == was[z.maxOrder := Remove(was[z.maxOrder], top)]
                     [z.maxOrder - 1 := [top, top + Pow2(z.maxOrder - 1)] + was[z.maxOrder - 1]]
      else now == was
    else ListsReserved(z, was, now)
  }

  lemma OrderStart(z: Zone, t: Tiling, was: seq<seq<nat>>, lo: nat, hi: nat)
    requires ListsFree(z, t, was)
    ensures Ordering(z, was, was, lo, lo, hi, z.maxOrder)
  {
    CarryStart(z, t, was, RoundDown(lo, z.maxOrder), RoundDown(lo, z.maxOrder) + Pow2(z.maxOrder));
  }

  lemma OrderTake(z: Zone, t: Tiling, u: Tiling, lo: nat, s: nat, hi: nat, o: nat, k: nat,
                  was: seq<seq<nat>>, now: seq<seq<nat>>)
    requires Looping(z, t, u, lo, s, hi, o) && ListsFree(z, t, was) && ListsFree(z, u, now)
    requires RoundDown(s, o) == s && s in u && u[s] == Tile(o, false) && s + Pow2(o) <= hi + 1
    requires Ordering(z, was, now, lo, s, hi, o)
    ensures o < |now|
    ensures var now' := now[o := Remove(now[o], s)];
      && (s + Pow2(o) <= hi ==> Ordering(z, was, now', lo, s + Pow2(o), hi, k))
      && (s + Pow2(o) > hi ==> ListsFinished(z, t, was, now', lo, hi))
  {
    hide RoundDown, AtBlock, AtTop, Tiles, Carrying, Looping, ListsFree, Coalesced, Remove, ListsReserved;
    LoopingStart(z, t, u, lo, s, hi, o);
    LoopBlock(z, t, u, lo, s, hi, o);
    CarryTake(z, t, u, lo, s, hi, o, was, now, RoundDown(s, z.maxOrder) + Pow2(z.maxOrder));
    RoundDownMonotone(s, s + Pow2(o), z.maxOrder);
  }

  lemma LoopingStart(z: Zone, t: Tiling, u: Tiling, lo: nat, s: nat, hi: nat, o: nat)
    requires Looping(z, t, u, lo, s, hi, o)
    ensures Tiles(z, t) && lo <= s
  {
  }

  lemma RoundDownMonotone(p: nat, q: nat, k: nat)
    requires p <= q
    ensures RoundDown(p, k) <= RoundDown(q, k)
  {
    hide RoundDown, Pow2, Aligned;
    RoundDownIs(p, k);
    RoundDownIs(q, k);
    if RoundDown(q, k) < RoundDown(p, k) { AlignedGap(RoundDown(q, k), RoundDown(p, k), k); }
  }

  lemma OrderSplit(z: Zone, t: Tiling, u: Tiling, lo: nat, s: nat, hi: nat, o: nat,
                   was: seq<seq<nat>>, now: seq<seq<nat>>)
    requires Looping(z, t, u, lo, s, hi, o) && ListsFree(z, t, was) && ListsFree(z, u, now) && o > 0
    requires RoundDown(s, o) in u && u[RoundDown(s, o)] == Tile(o, false)
    requires Ordering(z, was, now, lo, s, hi, o)
    ensures o < |now|
    ensures var g := RoundDown(s, o);
      var now' := now[o := Remove(now[o], g)][o - 1 := [g, g + Pow2(o - 1)] + now[o - 1]];
      && (s <= hi ==> Ordering(z, was, now', lo, s, hi, o - 1))
      && (s > hi ==> ListsFinished(z, t, was, now', lo, hi))
  {
    hide RoundDown, AtBlock, AtTop, Tiles, Carrying;
    if lo <= hi {
      LoopBlock(z, t, u, lo, s, hi, o);
      CarrySplit(z, t, u, lo, s, hi, o, was, now);
      StillInside(z, t, u, lo, s, hi, o);
    }
  }

  lemma StillInside(z: Zone, t: Tiling, u: Tiling, lo: nat, s: nat, hi: nat, o: nat)
    requires AtBlock(z, t, u, lo, s, hi, o)
    ensures s <= hi
  {
  }

  lemma OrderMiss(z: Zone, t: Tiling, u: Tiling, lo: nat, s: nat, hi: nat, o: nat,
                  was: seq<seq<nat>>, now: seq<seq<nat>>)
    requires Looping(z, t, u, lo, s, hi, o) && Ordering(z, was, now, lo, s, hi, o)
    requires !(RoundDown(s, o) in u && u[RoundDown(s, o)] == Tile(o, false))
    ensures s > hi ==> ListsFinished(z, t, was, now, lo, hi)
  {
    hide RoundDown, AtBlock, AtTop, Carrying;
    LoopMiss(z, t, u, lo, s, hi, o);
  }

  // ----- the lists are determined -----

  /** Two descending sequences with the same elements are equal. */
  lemma {:induction false} DescendingUnique(a: seq<nat>, b: seq<nat>)
    requires Descending(a) && Descending(b) && forall x :: x in a <==> x in b
    ensures a == b
    decreases |a|
  {
    assert a != [] ==> a[0] in a && a[0] in b;
    assert b != [] ==> b[0] in b && b[0] in a;
    if a != [] {
      assert a[0] == b[0];
      forall x ensures x in a[1..] <==> x in b[1..] {
        if x in a[1..] { assert x in a && x < a[0]; }
        if x in b[1..] { assert x in b && x < b[0]; }
      }
      DescendingUnique(a[1..], b[1..]);
    }
  }

  lemma AmongSame(s: seq<nat>, c: seq<nat>, d: seq<nat>)
    requires forall x :: x in c <==> x in d
    ensures Among(s, c) == Among(s, d)
  {
  }

  /** Together with the tiling, `ListsReserved` fixes every list. */
  lemma ListsUnique(z: Zone, u: Tiling, was: seq<seq<nat>>, now: seq<seq<nat>>, now': seq<seq<nat>>)
    requires ListsFree(z, u, now) && ListsReserved(z, was, now)
    requires ListsFree(z, u, now') && ListsReserved(z, was, now')
    ensures now == now'
  {
    forall k | 0 <= k < |now| ensures now[k] == now'[k] {
      assert forall h: nat :: h in now[k] <==> h in now'[k];
      if k == z.maxOrder {
        AmongSame(was[k], now[k], now'[k]);
      } else {
        FrontMembers(was[k], now[k]);
        FrontMembers(was[k], now'[k]);
        DescendingUnique(Front(was[k], now[k]), Front(was[k], now'[k]));
      }
    }
  }

  lemma FrontMembers(was: seq<nat>, now: seq<nat>)
    requires |was| <= |now| && Fronted(was, now, Front(was, now)) && Distinct(now)
    ensures forall x :: x in Front(was, now) <==> x in now && x !in was
  {
    var n := |now| - |was|;
    forall x | x in Front(was, now) ensures x !in was {
      var i :| 0 <= i < n && now[i] == x;
      assert forall j :: 0 <= j < |was| ==> was[j] == now[n + j];
    }
  }
}

/** How the page array and the free lists represent a tiling, and how each change the
    allocator makes to them changes the tiling they represent. */
module PageLists {
  import opened Bits
  import opened Sequences
  import opened Tilings

  /** `struct page`. */
  datatype Page = Page(order: int, refcount: int)

  /** `std::list::remove`: every occurrence of `x` is dropped. */
  function Remove(s: seq<nat>, x: nat): (r: seq<nat>)
    ensures forall y :: y in r <==> y in s && y != x
  {
    if s == [] then []
    else if s[0] == x then Remove(s[1..], x)
    else [s[0]] + Remove(s[1..], x)
  }

  lemma {:induction false} RemoveAbsent(s: seq<nat>, x: nat)
    requires x !in s
    ensures Remove(s, x) == s
  {
    if s != [] {
      RemoveAbsent(s[1..], x);
    }
  }

  lemma {:induction false} RemoveDistinct(s: seq<nat>, x: nat)
    requires Distinct(s)
    ensures Distinct(Remove(s, x))
    ensures s != [] && s[0] == x ==> Remove(s, x) == s[1..]
  {
    if s != [] {
      RemoveDistinct(s[1..], x);
      if s[0] == x {
        RemoveAbsent(s[1..], x);
      } else {
        assert s[0] !in s[1..];
      }
    }
  }

  /** `free[o]` lists exactly the free blocks of order `o`, once each. */
  ghost predicate ListsFree(z: Zone, t: Tiling, free: seq<seq<nat>>) {
    && |free| == z.maxOrder + 1
    && (forall o: nat, h: nat {:trigger h in free[o]} ::
          o < |free| ==> (h in free[o] <==> h in t && t[h] == Tile(o, false)))
    && (forall o :: 0 <= o < |free| ==> Distinct(free[o]))
  }

  /** The fields of every block head are exact, and the reference count is nonzero exactly at
      heads of live blocks. Nothing is said about the `order` of interior pages. */
  ghost predicate ExactHeads(z: Zone, t: Tiling, mem: seq<Page>) {
    && |mem| == z.numPages
    && (forall h :: h in t ==> h < |mem| && mem[h].order == t[h].order)
    && (forall p :: 0 <= p < |mem| ==> mem[p].refcount == (if p in t && t[p].live then 1 else 0))
  }

  ghost predicate Rep(z: Zone, t: Tiling, mem: seq<Page>, free: seq<seq<nat>>) {
    ListsFree(z, t, free) && ExactHeads(z, t, mem)
  }

  lemma RepSizes(z: Zone, t: Tiling, mem: seq<Page>, free: seq<seq<nat>>)
    requires Rep(z, t, mem, free)
    ensures |mem| == z.numPages && |free| == z.maxOrder + 1
  {
  }

  lemma ListsSplit(z: Zone, t: Tiling, free: seq<seq<nat>>, h: nat, m: nat, o: nat)
    requires ListsFree(z, t, free) && h in t && t[h] == Tile(o + 1, false)
    requires m !in t && m == h + Pow2(o) && o + 1 < |free|
    ensures ListsFree(z, Split(t, h, false, false), free[o + 1 := Remove(free[o + 1], h)][o := [h, m] + free[o]])
  {
    RemoveDistinct(free[o + 1], h);
    hide Pow2, Remove;
    assert h !in free[o] && m !in free[o];
    assert Distinct([h, m] + free[o]);
  }

  lemma RepSplit(z: Zone, t: Tiling, mem: seq<Page>, free: seq<seq<nat>>, h: nat,
                 mem': seq<Page>, free': seq<seq<nat>>)
    requires Tiles(z, t) && Rep(z, t, mem, free)
    requires h in t && !t[h].live && t[h].order > 0
    requires var o := t[h].order; var m := h + Pow2(o - 1);
      && m < |mem|
      && mem' == mem[h := Page(o - 1, mem[h].refcount)][m := Page(o - 1, 0)]
      && free' == free[o := Remove(free[o], h)][o - 1 := [h, m] + free[o - 1]]
    ensures Rep(z, Split(t, h, false, false), mem', free')
  {
    hide Aligned, Pow2, ListsFree, Remove;
    SplitMiddle(z, t, h);
    SizeOfLists(z, t, free, h);
    ListsSplit(z, t, free, h, h + Pow2(t[h].order - 1), t[h].order - 1);
  }

  lemma SizeOfLists(z: Zone, t: Tiling, free: seq<seq<nat>>, h: nat)
    requires Tiles(z, t) && ListsFree(z, t, free) && h in t
    ensures t[h].order <= z.maxOrder && |free| == z.maxOrder + 1
  {
  }

  lemma RepHold(z: Zone, t: Tiling, mem: seq<Page>, free: seq<seq<nat>>, h: nat,
                mem': seq<Page>, free': seq<seq<nat>>)
    requires Rep(z, t, mem, free) && h in t && !t[h].live && t[h].order <= z.maxOrder
    requires mem' == mem[h := Page(t[h].order, 1)]
    requires free' == free[t[h].order := Remove(free[t[h].order], h)]
    ensures Rep(z, Hold(t, h), mem', free')
  {
    RemoveDistinct(free[t[h].order], h);
  }

  /** On the represented lists, popping the front is the same as removing that block. */
  lemma PopIsRemove(z: Zone, t: Tiling, mem: seq<Page>, free: seq<seq<nat>>, o: nat)
    requires Rep(z, t, mem, free) && o <= z.maxOrder && free[o] != []
    ensures free[o][1..] == Remove(free[o], free[o][0])
  {
    RemoveDistinct(free[o], free[o][0]);
  }

  lemma RepRelease(z: Zone, t: Tiling, mem: seq<Page>, free: seq<seq<nat>>, h: nat,
                   mem': seq<Page>, free': seq<seq<nat>>)
    requires Rep(z, t, mem, free) && h in t && t[h].live && t[h].order <= z.maxOrder
    requires mem' == mem[h := Page(t[h].order, 0)]
    requires free' == free[t[h].order := [h] + free[t[h].order]]
    ensures Rep(z, Release(t, h), mem', free')
  {
    assert h !in free[t[h].order];
  }

  /** A live block and its free buddy become one live block; the other head's count drops to 0. */
  lemma RepMerge(z: Zone, t: Tiling, mem: seq<Page>, free: seq<seq<nat>>, h: nat, b: nat,
                 mem': seq<Page>, free': seq<seq<nat>>)
    requires Tiles(z, t) && Rep(z, t, mem, free)
    requires h in t && t[h].live && b in t && t[b] == Tile(t[h].order, false)
    requires b == End(t, h) || h == End(t, b)
    requires var low := if b < h then b else h;
      && mem' == mem[h := Page(t[h].order, 0)][low := Page(t[h].order + 1, 1)]
      && free' == free[t[h].order := Remove(free[t[h].order], b)]
    ensures Rep(z, Merge(t, if b < h then b else h, true), mem', free')
  {
    hide Aligned, Pow2, Remove;
    ExactMerge(z, t, mem, h, b, mem');
    ListsMerge(z, t, free, h, b, free');
  }

  lemma ExactMerge(z: Zone, t: Tiling, mem: seq<Page>, h: nat, b: nat, mem': seq<Page>)
    requires Tiles(z, t) && ExactHeads(z, t, mem)
    requires h in t && t[h].live && b in t && t[b] == Tile(t[h].order, false)
    requires b == End(t, h) || h == End(t, b)
    requires var low := if b < h then b else h;
      mem' == mem[h := Page(t[h].order, 0)][low := Page(t[h].order + 1, 1)]
    ensures ExactHeads(z, Merge(t, if b < h then b else h, true), mem')
  {
    hide Aligned, Tiles, Remove;
    var low := if b < h then b else h;
    assert End(t, low) == if b < h then h else b;
  }

  lemma ListsMerge(z: Zone, t: Tiling, free: seq<seq<nat>>, h: nat, b: nat, free': seq<seq<nat>>)
    requires Tiles(z, t) && ListsFree(z, t, free)
    requires h in t && t[h].live && b in t && t[b] == Tile(t[h].order, false)
    requires b == End(t, h) || h == End(t, b)
    requires t[h].order < |free| && free' == free[t[h].order := Remove(free[t[h].order], b)]
    ensures ListsFree(z, Merge(t, if b < h then b else h, true), free')
  {
    hide Aligned, Tiles, Remove;
    RemoveDistinct(free[t[h].order], b);
    var low := if b < h then b else h;
    assert End(t, low) == if b < h then h else b;
  }
}

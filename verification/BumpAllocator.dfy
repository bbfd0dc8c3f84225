/** The bump allocator behind page tables, program pages and task structures. */
module BumpAllocator {
  import opened Bits
  import opened Machine

  /** A region that was handed out: `size` bytes from `start`. */
  datatype Region = Region(start: nat, size: nat)

  /** The regions follow each other below `top`, without overlap. */
  ghost predicate Stacked(regions: seq<Region>, top: nat) {
    && (forall i :: 0 <= i < |regions| ==> regions[i].start + regions[i].size <= top)
    && (forall i, j :: 0 <= i < j < |regions| ==> regions[i].start + regions[i].size <= regions[j].start)
  }

  /** The least multiple of `Pow2(k)` at or above `x`. */
  ghost function RoundUp(x: nat, k: nat): nat {
    RoundDown(x + Pow2(k) - 1, k)
  }

  lemma RoundUpIs(x: nat, k: nat)
    ensures x <= RoundUp(x, k) < x + Pow2(k) && Aligned(RoundUp(x, k), k)
  {
    RoundDownIs(x + Pow2(k) - 1, k);
  }

  lemma RoundUpAligned(x: nat, k: nat)
    requires Aligned(x, k)
    ensures RoundUp(x, k) == x
  {
    RoundDownUnique(x + Pow2(k) - 1, k, x);
  }

  /** The rounding in `alloc_page`. */
  lemma PageTop(curr: nat)
    ensures AndNot(curr + 0x1000 - 1, 0x1000 - 1) == RoundUp(curr, 12) >= curr
    ensures Aligned(RoundUp(curr, 12), 12) && RoundUp(curr, 12) % PAGE_SIZE == 0
    ensures RoundUp(RoundUp(curr, 12) + PAGE_SIZE, 12) == RoundUp(curr, 12) + PAGE_SIZE
  {
    hide RoundUp, AndNot, Aligned, Pow2;
    Powers();
    RoundUpMask(curr, 12);
    RoundUpIs(curr, 12);
    var p := RoundUp(curr, 12);
    AlignedIsMod(p, 12);
    AlignedShift(p, 12);
    RoundUpAligned(p + PAGE_SIZE, 12);
  }

  lemma RoundUpMask(curr: nat, k: nat)
    ensures AndNot(curr + Pow2(k) - 1, Pow2(k) - 1) == RoundUp(curr, k)
  {
    AndNotMask(curr + Pow2(k) - 1, k);
  }

  class Heap {
    var curr: nat
    ghost var regions: seq<Region>

    ghost predicate Valid()
      reads this
    {
      curr < TWO_TO_THE_64 && Stacked(regions, curr)
    }

    /** `end` is the first address after the kernel image. */
    constructor (end: nat)
      requires end < TWO_TO_THE_64
      ensures Valid() && curr == end && regions == []
    {
      curr := end;
      regions := [];
    }

    method KMalloc(size: nat) returns (p: nat)
      requires Valid() && curr + 0xf + size < TWO_TO_THE_64
      modifies this
      ensures Valid() && p == RoundUp(old(curr), 4) && curr == p + size
      ensures Aligned(p, 4) && p >= old(curr) && regions == old(regions) + [Region(p, size)]
    {
      hide RoundUp, AndNot, Aligned, Pow2;
      Powers();
      RoundUpMask(curr, 4);
      RoundUpIs(curr, 4);
      curr := AndNot(curr + 0xf, 0xf);
      p := curr;
      curr := curr + size;
      regions := regions + [Region(p, size)];
    }

    method AllocPage() returns (p: nat)
      requires Valid() && RoundUp(curr, 12) + PAGE_SIZE < TWO_TO_THE_64
      modifies this
      ensures Valid() && p == RoundUp(old(curr), 12) && curr == p + PAGE_SIZE
      ensures Aligned(p, 12) && p % PAGE_SIZE == 0 && p >= old(curr)
      ensures RoundUp(curr, 12) == curr
      ensures regions == old(regions) + [Region(p, PAGE_SIZE)]
    {
      hide RoundUp, AndNot, Aligned, Pow2;
      PageTop(curr);
      curr := AndNot(curr + 0x1000 - 1, 0x1000 - 1);
      p := curr;
      curr := curr + 0x1000;
      regions := regions + [Region(p, PAGE_SIZE)];
    }
  }
}

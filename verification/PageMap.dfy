/** What a log of `map_pages` calls asks for: a last-write-wins map of pages, how much of each
    request the loop covers, and which requests meet in the same page tables. */
module PageMap {
  import opened Machine
  import opened Sv39
  import opened Wrappers

  /** One `map_pages` call: `pages` pages from the page of `va` to the frames from that of `pa`. */
  datatype Request = Request(va: nat, pages: nat, pa: nat, prot: nat)

  predicate Covers(r: Request, v: nat) {
    v < VA_HALF && r.va / 4096 <= v / 4096 < r.va / 4096 + r.pages
  }

  /** Where a request sends an address; flags that are no valid leaf flags make it fault. */
  function Target(r: Request, v: nat): Option<Mapping>
    requires Covers(r, v)
  {
    if ValidEntry(r.prot) && LeafEntry(r.prot)
    then Some(Mapping((r.pa / 4096 + (v / 4096 - r.va / 4096)) * 4096 + v % 4096, r.prot))
    else None
  }

  /** The last request that covers the address decides. */
  function Resolve(log: seq<Request>, v: nat): Option<Mapping> {
    if log == [] then None
    else if Covers(log[|log| - 1], v) then Target(log[|log| - 1], v)
    else Resolve(log[..|log| - 1], v)
  }

  /** `Resolve` is last write wins. */
  lemma {:induction false} LastWriteWins(log: seq<Request>, i: nat, v: nat)
    requires i < |log| && Covers(log[i], v) && forall j :: i < j < |log| ==> !Covers(log[j], v)
    ensures Resolve(log, v) == Target(log[i], v)
  {
    if i < |log| - 1 {
      assert !Covers(log[|log| - 1], v);
      LastWriteWins(log[..|log| - 1], i, v);
    }
  }

  lemma {:induction false} NeverWritten(log: seq<Request>, v: nat)
    requires forall j :: 0 <= j < |log| ==> !Covers(log[j], v)
    ensures Resolve(log, v) == None
  {
    if log != [] { NeverWritten(log[..|log| - 1], v); }
  }

  /** A request for `n + 1` pages is one for `n` pages followed by one for the next page. */
  ghost predicate OneMore(va: nat, n: nat, pa: nat, prot: nat, v: nat) {
    var r := Request(va, n + 1, pa, prot); var q := Request(va, n, pa, prot);
    var p := Request(va + 4096 * n, 1, pa + 4096 * n, prot);
    && (Covers(r, v) <==> Covers(q, v) || Covers(p, v))
    && (Covers(p, v) ==> Target(r, v) == Target(p, v))
    && (Covers(q, v) ==> Target(r, v) == Target(q, v) && !Covers(p, v))
  }

  lemma OneMorePage(va: nat, n: nat, pa: nat, prot: nat, v: nat)
    ensures OneMore(va, n, pa, prot, v)
  {
  }

  // ----- how much of a request is mapped -----

  /** Pages that hold `size` bytes. */
  function PagesFor(size: nat): nat {
    (size + 4095) / 4096
  }

  /** Pages that the loop of `map_pages` covers: never more than 2^31 bytes. */
  function MappedPages(size: nat): nat {
    PagesFor(if size <= 0x8000_0000 then size else 0x8000_0000)
  }

  /** The counter of the loop after `n` rounds: it is the offset of the next page as long as
      there is one, and ends the loop after that, also where it has wrapped. */
  lemma LoopBounds(n: nat, size: nat)
    requires n <= MappedPages(size) && size <= VA_HALF
    ensures ToUlong(ToInt(4096 * n)) < size <==> n < MappedPages(size)
    ensures n < MappedPages(size) ==> ToInt(4096 * n) == 4096 * n < size
    ensures n > 0 ==> ToInt(4096 * n) == ToInt(4096 * (n - 1) + 4096)
    ensures ToInt(0) == 0 && (size > 0 <==> MappedPages(size) > 0)
  {
  }

  /** Every byte of the request is mapped exactly if it has no more than 2^31 bytes and ends
      within as many pages, counted from the page it starts in, as its size alone needs. */
  lemma RequestComplete(va: nat, size: nat, pa: nat, prot: nat)
    requires va + size <= VA_HALF
    ensures (forall v :: va <= v < va + size ==> Covers(Request(va, MappedPages(size), pa, prot), v))
       <==> size == 0 || (size <= 0x8000_0000 && va % 4096 + size <= 4096 * PagesFor(size))
  {
    var r := Request(va, MappedPages(size), pa, prot);
    if size > 0 {
      var last := va + size - 1;
      LastPage(va, size);
      assert Covers(r, last) <==> last / 4096 < va / 4096 + MappedPages(size);
      forall v | va <= v < va + size && Covers(r, last) ensures Covers(r, v) {
        assert va / 4096 <= v / 4096 <= last / 4096;
      }
    }
  }

  lemma LastPage(va: nat, size: nat)
    requires size > 0
    ensures (va + size - 1) / 4096 < va / 4096 + MappedPages(size)
       <==> size <= 0x8000_0000 && va % 4096 + size <= 4096 * PagesFor(size)
  {
    var a, o := va / 4096, va % 4096;
    assert (va + size - 1) / 4096 == a + (o + size - 1) / 4096;
  }

  /** From the start of a page, the size alone decides. */
  lemma AlignedComplete(va: nat, size: nat, pa: nat, prot: nat)
    requires va + size <= VA_HALF && va % 4096 == 0
    ensures (forall v :: va <= v < va + size ==> Covers(Request(va, MappedPages(size), pa, prot), v))
       <==> size <= 0x8000_0000
  {
    RequestComplete(va, size, pa, prot);
  }

  /** A page of bytes from the middle of a page: the second half is not mapped. */
  lemma UnalignedIncomplete(pa: nat, prot: nat)
    ensures !Covers(Request(0x800, MappedPages(0x1000), pa, prot), 0x1400)
  {
  }

  /** The byte after the first 2^31 is not mapped. */
  lemma HugeIncomplete(pa: nat, prot: nat)
    ensures !Covers(Request(0, MappedPages(0x8000_0001), pa, prot), 0x8000_0000)
  {
  }

  // ----- which requests meet in a table -----

  /** Some requested page lies in the same slot as `v`. */
  ghost predicate Shares(log: seq<Request>, v: nat, level: nat) {
    exists i: nat, w: nat :: i < |log| && Covers(log[i], w) && SameSlot(w, v, level)
  }

  /** Tables below the root that requests so far have in common with `v`. */
  ghost function Known(log: seq<Request>, v: nat): nat {
    if Shares(log, v, 1) then 2 else if Shares(log, v, 2) then 1 else 0
  }

  /** All pages ever requested lie in different GiB. */
  ghost predicate Apart(log: seq<Request>) {
    forall i: nat, j: nat, v: nat, w: nat ::
      i <= j < |log| && Covers(log[i], v) && Covers(log[j], w) && SameSlot(v, w, 2) ==>
        i == j && v / 4096 == w / 4096
  }

  lemma SharesEmpty(log: seq<Request>, va: nat, pa: nat, prot: nat, v: nat, level: nat)
    ensures Shares(log + [Request(va, 0, pa, prot)], v, level) <==> Shares(log, v, level)
  {
    var log' := log + [Request(va, 0, pa, prot)];
    if i: nat, w: nat :| i < |log| && Covers(log[i], w) && SameSlot(w, v, level) {
      assert Covers(log'[i], w);
    }
    if i: nat, w: nat :| i < |log'| && Covers(log'[i], w) && SameSlot(w, v, level) {
      assert Covers(log[i], w);
    }
  }

  /** One more page makes known exactly the slots of that page. */
  lemma SharesNext(log: seq<Request>, va: nat, n: nat, pa: nat, prot: nat, v: nat, level: nat)
    requires va + 4096 * n < VA_HALF
    ensures Shares(log + [Request(va, n + 1, pa, prot)], v, level)
       <==> Shares(log + [Request(va, n, pa, prot)], v, level) || SameSlot(va + 4096 * n, v, level)
  {
    hide SameSlot, Covers;
    var q, r, x := Request(va, n, pa, prot), Request(va, n + 1, pa, prot), va + 4096 * n;
    var before, after := log + [q], log + [r];
    NextPage(va, n, pa, prot, x);
    if SameSlot(x, v, level) { assert Covers(after[|log|], x); }
    if i: nat, w: nat :| i < |before| && Covers(before[i], w) && SameSlot(w, v, level) {
      NextPage(va, n, pa, prot, w);
      assert Covers(after[i], w);
    }
    if i: nat, w: nat :| i < |after| && Covers(after[i], w) && SameSlot(w, v, level) {
      NextPage(va, n, pa, prot, w);
      if w / 4096 == x / 4096 && i == |log| {
        SameSlotAs(w, x, v, level);
      } else {
        assert Covers(before[i], w);
      }
    }
  }

  /** What a request covers once it has one more page. */
  lemma NextPage(va: nat, n: nat, pa: nat, prot: nat, w: nat)
    requires va + 4096 * n < VA_HALF
    ensures var q, r, x := Request(va, n, pa, prot), Request(va, n + 1, pa, prot), va + 4096 * n;
      && (Covers(r, w) <==> Covers(q, w) || (w < VA_HALF && w / 4096 == x / 4096))
      && (Covers(q, w) ==> w / 4096 != x / 4096)
  {
  }

  lemma KnownNext(log: seq<Request>, va: nat, n: nat, pa: nat, prot: nat, v: nat)
    requires va + 4096 * n < VA_HALF
    ensures Known(log + [Request(va, n + 1, pa, prot)], v)
         == Max(Known(log + [Request(va, n, pa, prot)], v), Shared(va + 4096 * n, v))
  {
    hide Shares, SameSlot;
    SharesNext(log, va, n, pa, prot, v, 1);
    SharesNext(log, va, n, pa, prot, v, 2);
  }

  lemma KnownEmpty(log: seq<Request>, va: nat, pa: nat, prot: nat, v: nat)
    ensures Known(log + [Request(va, 0, pa, prot)], v) == Known(log, v)
  {
    hide Shares;
    SharesEmpty(log, va, pa, prot, v, 1);
    SharesEmpty(log, va, pa, prot, v, 2);
  }

  lemma ApartEmpty(log: seq<Request>, va: nat, pa: nat, prot: nat)
    ensures Apart(log + [Request(va, 0, pa, prot)]) <==> Apart(log)
  {
    hide SameSlot;
    var log' := log + [Request(va, 0, pa, prot)];
    assert forall v :: !Covers(log'[|log|], v);
    assert forall i :: 0 <= i < |log| ==> log'[i] == log[i];
  }

  /** With one more page the pages stay apart exactly if they were and no earlier one lies in
      the GiB of the new one. */
  lemma ApartNext(log: seq<Request>, va: nat, n: nat, pa: nat, prot: nat)
    requires va + 4096 * n < VA_HALF
    ensures Apart(log + [Request(va, n + 1, pa, prot)])
       <==> Apart(log + [Request(va, n, pa, prot)]) && !Shares(log + [Request(va, n, pa, prot)], va + 4096 * n, 2)
  {
    if Apart(log + [Request(va, n + 1, pa, prot)]) {
      ApartShorter(log, va, n, pa, prot);
    } else if Apart(log + [Request(va, n, pa, prot)]) && !Shares(log + [Request(va, n, pa, prot)], va + 4096 * n, 2) {
      ApartLonger(log, va, n, pa, prot);
    }
  }

  lemma ApartLonger(log: seq<Request>, va: nat, n: nat, pa: nat, prot: nat)
    requires va + 4096 * n < VA_HALF
    requires Apart(log + [Request(va, n, pa, prot)]) && !Shares(log + [Request(va, n, pa, prot)], va + 4096 * n, 2)
    ensures Apart(log + [Request(va, n + 1, pa, prot)])
  {
    hide SameSlot, Covers;
    var x := va + 4096 * n;
    var before, after := log + [Request(va, n, pa, prot)], log + [Request(va, n + 1, pa, prot)];
    assert forall i: nat, u: nat :: i < |before| && Covers(before[i], u) ==> !SameSlot(u, x, 2);
    forall i: nat, j: nat, v: nat, w: nat
      | i <= j < |after| && Covers(after[i], v) && Covers(after[j], w) && SameSlot(v, w, 2)
      ensures i == j && v / 4096 == w / 4096
    {
      NextPage(va, n, pa, prot, v);
      NextPage(va, n, pa, prot, w);
      SameSlotAs(v, x, w, 2);
      SameSlotAs(w, x, v, 2);
      SameSlotAs(x, x, v, 2);
      SameSlotAs(x, x, w, 2);
      assert Covers(before[i], v) || (i == |log| && v / 4096 == x / 4096);
      assert Covers(before[j], w) || (j == |log| && w / 4096 == x / 4096);
    }
  }

  lemma ApartShorter(log: seq<Request>, va: nat, n: nat, pa: nat, prot: nat)
    requires va + 4096 * n < VA_HALF
    requires Apart(log + [Request(va, n + 1, pa, prot)])
    ensures Apart(log + [Request(va, n, pa, prot)]) && !Shares(log + [Request(va, n, pa, prot)], va + 4096 * n, 2)
  {
    hide SameSlot, Covers;
    var x := va + 4096 * n;
    var before, after := log + [Request(va, n, pa, prot)], log + [Request(va, n + 1, pa, prot)];
    forall i: nat, v: nat | i < |before| && Covers(before[i], v) ensures Covers(after[i], v) {
      NextPage(va, n, pa, prot, v);
    }
    NextPage(va, n, pa, prot, x);
    assert Covers(after[|log|], x);
    forall i: nat, w: nat | i < |before| && Covers(before[i], w) ensures !SameSlot(w, x, 2) {
      NextPage(va, n, pa, prot, w);
    }
  }

  /** Two pages in one GiB are not apart. */
  lemma TwoPagesMeet(pa: nat, prot: nat)
    ensures !Apart([Request(0, MappedPages(0x2000), pa, prot)])
  {
    var log := [Request(0, MappedPages(0x2000), pa, prot)];
    assert Covers(log[0], 0) && Covers(log[0], 0x1000) && SameSlot(0, 0x1000, 2);
  }
}

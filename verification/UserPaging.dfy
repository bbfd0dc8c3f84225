/** `setup_vm`, `pagewalk` and `map_pages`: three-level page tables built on demand for the
    user half of the address space. Tables are addressed by physical frame number. */
module UserPaging {
  import opened Bits
  import opened Wrappers
  import opened BumpAllocator
  import opened Machine
  import opened PageMap
  import opened PageTree
  import opened Sv39

  const NUM_PAGES: nat := 0x28_0000

  const PTE_V: nat := 1
  const PROT_USER_BASE: nat := 1 + 16 + 64 + 128
  const PROT_USER_RX: nat := PROT_USER_BASE + 2 + 8
  const PROT_USER_RW: nat := PROT_USER_BASE + 2 + 4

  // ----- the address space that the requests ask for -----

  /** The linear map of physical memory at PAGE_OFFSET. */
  function KernelMap(v: nat): Option<Mapping> {
    if PAGE_OFFSET <= v < PAGE_OFFSET + NUM_PAGES * 4096 then Some(Mapping(v - PAGE_OFFSET, PROT_KERNEL)) else None
  }

  function AddressSpace(log: seq<Request>, v: nat): Option<Mapping> {
    if v < VA_HALF then Resolve(log, v) else KernelMap(v)
  }

  // ----- the root table after setup_vm -----

  /** `i * (PGD_SIZE / PAGE_SIZE) << 10 | PROT_KERNEL`. */
  function GigaEntry(i: nat): nat {
    Or(i * (GIB / PAGE_SIZE) * 1024, PROT_KERNEL)
  }

  lemma KernelFlags()
    ensures ValidEntry(PROT_KERNEL) && LeafEntry(PROT_KERNEL)
  {
  }

  lemma GigaEntryIs(i: nat)
    requires i < 10
    ensures GigaEntry(i) == i * 0x1000_0000 + PROT_KERNEL
    ensures ValidEntry(GigaEntry(i)) && LeafEntry(GigaEntry(i))
    ensures Ppn(GigaEntry(i)) == i * 0x4_0000 && GigaEntry(i) % 1024 == PROT_KERNEL
    ensures LeafMapping(GigaEntry(i), 0, 2).Some?
  {
    hide Or, Pow2, Bit;
    Powers();
    KernelFlags();
    OrLow(i * (GIB / PAGE_SIZE), PROT_KERNEL, 10);
    LeafBits(i * (GIB / PAGE_SIZE), PROT_KERNEL);
    ModUnique(i * 0x4_0000, 0x4_0000, i, 0);
  }

  /** Slots 256 to 265 of the root hold the linear map and all others are zero. */
  ghost predicate LinearRoot(row: seq<nat>) {
    && |row| == 512
    && forall i :: 0 <= i < 512 ==> row[i] == if 256 <= i < 266 then GigaEntry(i - 256) else 0
  }

  lemma RootIndex(v: nat)
    requires PAGE_OFFSET <= v < TWO_TO_THE_64
    ensures Vpn(v, 2) == 256 + (v - PAGE_OFFSET) / GIB
    ensures v - PAGE_OFFSET == (Vpn(v, 2) - 256) * GIB + v % GIB
  {
    hide Vpn;
    var d := v - PAGE_OFFSET;
    HighHalfIndex(d);
    ModUnique(v, GIB, PAGE_OFFSET / GIB + d / GIB, d % GIB);
  }

  lemma ZeroEntry()
    ensures !ValidEntry(0)
  {
    assert !Bit(0, 0);
  }

  lemma LinearTranslate(m: Tables, pgd: nat, v: nat)
    requires pgd in m && LinearRoot(m[pgd])
    ensures Translate(m, pgd, v) == AddressSpace([], v)
  {
    hide Vpn, GigaEntry, ValidEntry, LeafEntry;
    if CanonicalAddress(v) {
      RootHalves(v);
      ZeroEntry();
      var i := Vpn(v, 2);
      if v >= PAGE_OFFSET {
        RootIndex(v);
        if i < 266 { GigaEntryIs(i - 256); }
      }
    }
  }

  lemma LinearShape(m: Tables, pgd: nat)
    requires m.Keys == {pgd} && LinearRoot(m[pgd])
    ensures Shape(m, pgd, Tree(map[pgd := 2], map[]))
  {
    forall i | 256 <= i < 512 ensures KernelEntry(m[pgd][i]) {
      if i < 266 { GigaEntryIs(i - 256); }
    }
  }

  // ----- the state -----

  function Frame(p: nat): nat {
    if p < PAGE_OFFSET then 0 else (p - PAGE_OFFSET) / 4096
  }

  class AddressSpaces {
    const heap: Heap
    const pgd: nat
    var tables: Tables
    ghost var tree: Tree
    ghost var log: seq<Request>
    /** How often the present branch of `pagewalk` was taken. */
    ghost var followed: nat

    /** The tables form a tree below the root and lie below the bump pointer. */
    ghost predicate Sound()
      reads `tables, `tree, heap
    {
      && heap.Valid() && PAGE_OFFSET <= heap.curr
      && Shape(tables, pgd, tree)
      && forall f :: f in tables ==> PAGE_OFFSET + f * 4096 + 4096 <= heap.curr
    }

    /** The hardware translation of every address is what the requests so far ask for; the
        tables that exist are those that they need, and the present branch was never taken
        exactly if all requested pages lie in different GiB. */
    ghost predicate Valid()
      reads this, heap
    {
      && Sound() && (forall v :: Translate(tables, pgd, v) == AddressSpace(log, v))
      && Recorded(tables, pgd, log, followed)
    }

    /** `setup_vm`; the root lies in the data section, below the bump pointer. */
    constructor (h: Heap, root: nat)
      requires h.Valid() && PAGE_OFFSET + root * 4096 + 4096 <= h.curr
      ensures Valid() && log == [] && followed == 0 && heap == h && pgd == root && tables.Keys == {root}
    {
      heap := h;
      pgd := root;
      log, followed := [], 0;
      tree := Tree(map[root := 2], map[]);
      tables := map[root := seq(512, _ => 0)];
      new;
      var i := 0;
      while i < NUM_PAGES / (GIB / PAGE_SIZE)
        invariant i <= 10 && tables.Keys == {root} && |tables[root]| == 512
        invariant tree == Tree(map[root := 2], map[]) && log == [] && followed == 0
        invariant forall k :: 0 <= k < 512 ==> tables[root][k] == if 256 <= k < 256 + i then GigaEntry(k - 256) else 0
      {
        var row: seq<nat> := tables[root][256 + i := GigaEntry(i)];
        tables := tables[root := row];
        i := i + 1;
      }
      LinearShape(tables, root);
      LinearDepth(tables, root);
      forall v ensures Translate(tables, pgd, v) == AddressSpace([], v) { LinearTranslate(tables, pgd, v); }
    }

    lemma SoundShape()
      requires Sound()
      ensures Shape(tables, pgd, tree)
    {
    }

    /** Walk to the bottom table for `va`, adding the tables that are missing, and set its entry. */
    method PageWalk(va: nat, pa: nat, prot: nat)
      requires Sound() && va < VA_HALF && pa < 0x100_0000_0000_0000 && prot < 1024
      requires RoundUp(heap.curr, 12) + 2 * PAGE_SIZE < TWO_TO_THE_64
      modifies this`tables, this`tree, this`followed, heap
      ensures Sound() && log == old(log)
      ensures RoundUp(heap.curr, 12) <= RoundUp(old(heap.curr), 12) + 2 * PAGE_SIZE && old(heap.curr) <= heap.curr
      ensures forall f :: f in tables ==> f in old(tables) || PAGE_OFFSET + f * 4096 >= old(heap.curr)
      ensures Redirected(old(tables), tables, pgd, Request(va, 1, pa, prot))
      ensures followed == old(followed) + Depth(old(tables), pgd, va)
      ensures Deepened(old(tables), tables, pgd, va, 2) && old(tables).Keys <= tables.Keys
      ensures var found := Depth(old(tables), pgd, va);
        if found == 2 then heap.curr == old(heap.curr)
        else heap.curr == RoundUp(old(heap.curr), 12) + PAGE_SIZE * (2 - found) &&
             Frame(RoundUp(old(heap.curr), 12)) in tables
    {
      hide Sound, Shape, OnPath, Translate, RoundUp, Or, Index, Redirected, Depth, Deepened, Shared, SameTranslation;
      SoundShape();
      var vpn := va / 4096;
      var table := pgd;
      WalkStart(tables, pgd, tree, va);
      DeepenedStart(tables, pgd, va);
      ghost var d0 := Depth(tables, pgd, va);
      var level := 2;
      while level > 0
        invariant 0 <= level <= 2 && Sound()
        invariant table in tables && table in tree.level && tree.level[table] == level
        invariant OnPath(tables, pgd, va, 2, table)
        invariant old(heap.curr) <= heap.curr
        invariant forall f :: f in tables ==> f in old(tables) || PAGE_OFFSET + f * 4096 >= old(heap.curr)
        invariant SameTranslation(old(tables), tables, pgd)
        invariant followed == old(followed) + Min(d0, 2 - level)
        invariant Deepened(old(tables), tables, pgd, va, 2 - level) && old(tables).Keys <= tables.Keys
        invariant if d0 >= 2 - level then heap.curr == old(heap.curr)
                  else heap.curr == RoundUp(heap.curr, 12) &&
                       heap.curr == RoundUp(old(heap.curr), 12) + PAGE_SIZE * (2 - level - d0) &&
                       Frame(RoundUp(old(heap.curr), 12)) in tables
      {
        ghost var m1 := tables;
        DeepenedSelf(old(tables), m1, pgd, va, 2 - level);
        table := NextTable(va, vpn, table, level);
        DeepenedAgain(old(tables), m1, tables, pgd, va, 2 - level);
        SameTranslationAgain(old(tables), m1, tables, pgd);
        level := level - 1;
      }
      SetEntry(va, vpn, pa, prot, table, old(tables));
    }

    /** The entry of the bottom table is written; `m0` are the tables before the walk. */
    method SetEntry(va: nat, vpn: nat, pa: nat, prot: nat, table: nat, ghost m0: Tables)
      requires Sound() && va < VA_HALF && vpn == va / 4096 && pa < 0x100_0000_0000_0000 && prot < 1024
      requires table in tables && tree.level[table] == 0 && OnPath(tables, pgd, va, 2, table)
      requires SameTranslation(m0, tables, pgd) && Deepened(m0, tables, pgd, va, 2)
      modifies this`tables
      ensures Sound() && tables.Keys == old(tables).Keys
      ensures Redirected(m0, tables, pgd, Request(va, 1, pa, prot)) && Deepened(m0, tables, pgd, va, 2)
    {
      hide Shape, OnPath, Translate, Or, Index, Redirected, Depth, Deepened, Shared, SameTranslation;
      ShapeRow(tables, pgd, tree, table, va, 0);
      var idx := Index(vpn, 0);
      var row: seq<nat> := tables[table][idx := Or(pa / 4096 * 1024, prot)];
      LeafWritten(tables, pgd, tree, table, va, pa, prot);
      RedirectedFrom(m0, tables, tables[table := row], pgd, Request(va, 1, pa, prot));
      DeepenedStore(m0, tables, pgd, tree, table, va, idx, Or(pa / 4096 * 1024, prot));
      tables := tables[table := row];
    }

    /** The page is cleared and linked in as a table. */
    method AddTable(table: nat, idx: nat, page: nat)
      requires table in tables && idx < |tables[table]|
      requires PAGE_OFFSET <= page && Frame(page) != table
      modifies this`tables
      ensures tables == Link(old(tables), table, idx, Frame(page))
      ensures tables.Keys == old(tables).Keys + {Frame(page)}
    {
      ghost var m0 := tables;
      tables := tables[Frame(page) := seq(512, _ => 0)];
      var row: seq<nat> := tables[table][idx := Or((page - PAGE_OFFSET) / 4096 * 1024, PTE_V)];
      tables := tables[table := row];
      LinkIs(m0, table, idx, Frame(page));
    }

    /** One level of the walk. */
    method NextTable(va: nat, vpn: nat, table: nat, level: nat) returns (next: nat)
      requires Sound() && va < VA_HALF && vpn == va / 4096 && 0 < level <= 2
      requires table in tables && tree.level[table] == level && OnPath(tables, pgd, va, 2, table)
      requires RoundUp(heap.curr, 12) + PAGE_SIZE < TWO_TO_THE_64
      modifies this`tables, this`tree, this`followed, heap
      ensures Sound() && next in tables && next in tree.level && tree.level[next] == level - 1
      ensures OnPath(tables, pgd, va, 2, next)
      ensures RoundUp(heap.curr, 12) <= RoundUp(old(heap.curr), 12) + PAGE_SIZE && old(heap.curr) <= heap.curr
      ensures forall f :: f in tables ==> f in old(tables) || PAGE_OFFSET + f * 4096 >= old(heap.curr)
      ensures SameTranslation(old(tables), tables, pgd)
      ensures Deepened(old(tables), tables, pgd, va, 3 - level) && old(tables).Keys <= tables.Keys
      ensures if Depth(old(tables), pgd, va) >= 3 - level
              then followed == old(followed) + 1 && tables == old(tables) && heap.curr == old(heap.curr)
              else followed == old(followed) && next == Frame(RoundUp(old(heap.curr), 12)) && next !in old(tables)
                   && heap.curr == RoundUp(heap.curr, 12) == RoundUp(old(heap.curr), 12) + PAGE_SIZE
    {
      hide Shape, OnPath, Translate, RoundUp, Or, Link, Index, Inner, Aligned, Depth, Deepened;
      ShapeRow(tables, pgd, tree, table, va, level);
      DepthAtLevel(tables, pgd, tree, va, table);
      var idx := Index(vpn, level);
      if tables[table][idx] % 2 == 1 {
        PathStep(tables, pgd, tree, pgd, va, 2, table);
        DeepenedFollow(tables, pgd, va, 3 - level);
        followed := followed + 1;
        next := Ppn(tables[table][idx]);
      } else {
        var page := heap.AllocPage();
        next := Frame(page);
        ghost var m0 := tables;
        LinkDone(m0, pgd, tree, table, va, next);
        DeepenedLink(m0, pgd, tree, table, va, next);
        AddTable(table, idx, page);
        tree := LinkTree(tree, table, idx, next);
      }
    }

    /** Map `size` bytes at `va`. The counter is a 32-bit int: past 0x7fffffff it wraps to a
        negative value, which compares as a huge unsigned number and ends the loop. */
    method MapPages(va: nat, size: nat, pa: nat, prot: nat)
      requires Valid() && va + size <= VA_HALF && pa + size <= 0x100_0000_0000_0000 && prot < 1024
      requires RoundUp(heap.curr, 12) + 2 * PAGE_SIZE * MappedPages(size) < TWO_TO_THE_64
      modifies this, heap
      ensures Valid() && log == old(log) + [Request(va, MappedPages(size), pa, prot)]
      ensures RoundUp(heap.curr, 12) <= RoundUp(old(heap.curr), 12) + 2 * PAGE_SIZE * MappedPages(size)
      ensures old(heap.curr) <= heap.curr
      ensures forall f :: f in tables ==> f in old(tables) || PAGE_OFFSET + f * 4096 >= old(heap.curr)
      ensures old(tables).Keys <= tables.Keys
      ensures size > 0 && Known(old(log), va) < 2 ==> Frame(RoundUp(old(heap.curr), 12)) in tables
    {
      hide Shape, RoundUp, Redirected, Translate, Recorded, Deepened, Depth, Known;
      hide ToInt, ToUlong, MappedPages, AddressSpace, Stacked, Sound;
      LoopBounds(0, size);
      RedirectedNone(tables, pgd, va, pa, prot);
      RecordedNone(tables, pgd, log, va, pa, prot, followed);
      var i: int := 0;
      ghost var n := 0;
      ghost var m0 := tables;
      while ToUlong(i) < size
        invariant 0 <= n <= MappedPages(size) && i == ToInt(4096 * n)
        invariant ToUlong(i) < size <==> n < MappedPages(size)
        invariant n < MappedPages(size) ==> i == 4096 * n < size
        invariant Sound() && log == old(log)
        invariant RoundUp(heap.curr, 12) <= RoundUp(old(heap.curr), 12) + 2 * PAGE_SIZE * n
        invariant old(heap.curr) <= heap.curr
        invariant forall f :: f in tables ==> f in old(tables) || PAGE_OFFSET + f * 4096 >= old(heap.curr)
        invariant Redirected(m0, tables, pgd, Request(va, n, pa, prot))
        invariant Recorded(tables, pgd, log + [Request(va, n, pa, prot)], followed)
        invariant old(tables).Keys <= tables.Keys && (n == 0 ==> tables == m0 && heap.curr == old(heap.curr))
        invariant n > 0 && Known(log, va) < 2 ==> Frame(RoundUp(old(heap.curr), 12)) in tables
        decreases MappedPages(size) - n
      {
        ghost var m1, k1 := tables, followed;
        LoopBounds(n + 1, size);
        RecordedDepth(tables, pgd, log, va, n, pa, prot, followed);
        PageWalk(va + i, pa + i, prot);
        RedirectedNext(m0, m1, tables, pgd, va, n, pa, prot);
        RecordedNext(m1, tables, pgd, log, va, n, pa, prot, k1);
        i := ToInt(i + 4096);
        n := n + 1;
      }
      log := log + [Request(va, n, pa, prot)];
      Logged(m0, old(log));
    }

    /** A page for the caller; no page table lies in it. */
    method NewPage() returns (page: nat)
      requires Valid() && RoundUp(heap.curr, 12) + PAGE_SIZE < TWO_TO_THE_64
      modifies heap
      ensures Valid() && page == RoundUp(old(heap.curr), 12) && heap.curr == RoundUp(heap.curr, 12) == page + PAGE_SIZE
      ensures PAGE_OFFSET <= old(heap.curr) <= page && (page - PAGE_OFFSET) % PAGE_SIZE == 0
      ensures page == PAGE_OFFSET + 4096 * Frame(page) && Frame(page + PAGE_SIZE) == Frame(page) + 1
      ensures Frame(page) !in tables
    {
      hide Shape, RoundUp, Translate, Aligned, AddressSpace, Stacked, Recorded;
      page := heap.AllocPage();
    }

    /** The mapping part of `exec`: a page for the program, mapped at address 0, and one page
        of stack below the end of the user half. */
    method MapProgram(filesize: nat) returns (program: nat, stack: nat)
      requires Valid() && filesize < 0x8000_0000
      requires RoundUp(heap.curr, 12) + 2 * PAGE_SIZE * MappedPages(filesize) + 4 * PAGE_SIZE < TWO_TO_THE_64
      modifies this, heap
      ensures Valid() && PAGE_OFFSET <= program && program + PAGE_SIZE <= stack
      ensures log == old(log) + [Request(0, MappedPages(filesize), program - PAGE_OFFSET, PROT_USER_RX),
                                 Request(0x3f_ffff_f000, 1, stack - PAGE_OFFSET, PROT_USER_RW)]
      ensures forall v: nat :: Translate(tables, pgd, v) ==
                ProgramMap(old(log), filesize, program - PAGE_OFFSET, stack - PAGE_OFFSET, v)
      ensures forall v: nat :: v < filesize ==>
                var m := Translate(tables, pgd, v);
                m.Some? && Bit(m.value.flags, 1) && !Bit(m.value.flags, 2) && Bit(m.value.flags, 3) &&
                Bit(m.value.flags, 4)
      ensures forall v: nat :: 0x3f_ffff_f000 <= v < 0x40_0000_0000 ==>
                var m := Translate(tables, pgd, v);
                m.Some? && Bit(m.value.flags, 1) && Bit(m.value.flags, 2) && !Bit(m.value.flags, 3) &&
                Bit(m.value.flags, 4)
      ensures forall v: nat :: v >= 0x40_0000_0000 ==>
                var m := Translate(tables, pgd, v); m.Some? ==> !Bit(m.value.flags, 4)
      ensures Frame(program) !in tables && Frame(stack) !in tables
      ensures filesize > PAGE_SIZE && Known(old(log), 0) < 2 ==> Frame(program) + 1 in tables
      ensures old(log) == [] && filesize <= PAGE_SIZE ==> followed == 0
    {
      hide Valid, RoundUp, Translate, ProgramMap, Known, MappedPages, Frame;
      ghost var before := log;
      assert MappedPages(PAGE_SIZE) == 1 by { OnePage(); }
      program := NewPage();
      MapPages(0x0, filesize, program - PAGE_OFFSET, PROT_USER_RX);
      stack := NewPage();
      MapPages(0x3f_ffff_f000, PAGE_SIZE, stack - PAGE_OFFSET, PROT_USER_RW);
      ProgramDone(before, filesize, program - PAGE_OFFSET, stack - PAGE_OFFSET);
      ProgramFlags(before, filesize, program - PAGE_OFFSET, stack - PAGE_OFFSET);
    }

    /** In every state the linear map ends with the tenth GiB, and its pages are the kernel's. */
    lemma KernelEnd()
      requires Valid()
      ensures Translate(tables, pgd, 0xffff_ffc0_0000_0000) == Some(Mapping(0, 0xef))
      ensures Translate(tables, pgd, 0xffff_ffc2_7fff_ffff) == Some(Mapping(0x2_7fff_ffff, 0xef))
      ensures Translate(tables, pgd, 0xffff_ffc2_8000_0000) == None
      ensures forall v :: v >= VA_HALF ==>
                var m := Translate(tables, pgd, v); m.Some? ==> Allows(m.value.flags, true, true, true, false)
    {
      hide Translate, Sound, Recorded;
      KernelAllows();
    }

    lemma ProgramDone(before: seq<Request>, filesize: nat, program: nat, stack: nat)
      requires Valid() && filesize < 0x8000_0000 && program % PAGE_SIZE == 0 && stack % PAGE_SIZE == 0
      requires log == before + [Request(0, MappedPages(filesize), program, PROT_USER_RX)]
                             + [Request(0x3f_ffff_f000, 1, stack, PROT_USER_RW)]
      ensures log == before + [Request(0, MappedPages(filesize), program, PROT_USER_RX),
                               Request(0x3f_ffff_f000, 1, stack, PROT_USER_RW)]
      ensures forall v: nat :: Translate(tables, pgd, v) == ProgramMap(before, filesize, program, stack, v)
      ensures before == [] && filesize <= PAGE_SIZE ==> followed == 0
    {
      hide Sound, Translate, Recorded, AddressSpace, ProgramMap;
      assert log == before + [Request(0, MappedPages(filesize), program, PROT_USER_RX),
                              Request(0x3f_ffff_f000, 1, stack, PROT_USER_RW)];
      forall v: nat ensures AddressSpace(log, v) == ProgramMap(before, filesize, program, stack, v) {
        ProgramLog(before, filesize, program, stack, v);
      }
      if before == [] && filesize <= PAGE_SIZE { ProgramApart(tables, pgd, log, followed); }
    }

    /** The present branch of `pagewalk` uses the physical address of a table as a pointer. In
        the address space built here that address is a user address: it translates as the
        requests say, so not at all unless one of them covers it. */
    lemma TablePointer(f: nat)
      requires Valid() && f in tables
      ensures Translate(tables, pgd, f * 4096) == Resolve(log, f * 4096)
      ensures (forall j :: 0 <= j < |log| ==> !Covers(log[j], f * 4096)) ==> Translate(tables, pgd, f * 4096) == None
    {
      hide Translate, Shape, Recorded, Stacked;
      assert f * 4096 < VA_HALF;
      if forall j :: 0 <= j < |log| ==> !Covers(log[j], f * 4096) { NeverWritten(log, f * 4096); }
    }

    /** Mapping two pages in one GiB takes the present branch. */
    lemma TwoPagesFollow(pa: nat, prot: nat)
      requires Valid() && log == [Request(0, MappedPages(0x2000), pa, prot)]
      ensures followed > 0
    {
      TwoPagesMeet(pa, prot);
    }

    lemma Logged(m0: Tables, before: seq<Request>)
      requires Sound() && (forall v :: Translate(m0, pgd, v) == AddressSpace(before, v))
      requires log != [] && log[..|log| - 1] == before && Redirected(m0, tables, pgd, log[|log| - 1])
      requires Recorded(tables, pgd, log, followed)
      ensures Valid()
    {
    }
  }

  /** The address space with a program and its stack, on top of what was mapped before. */
  function ProgramMap(before: seq<Request>, filesize: nat, program: nat, stack: nat, v: nat): Option<Mapping> {
    if v < 4096 * MappedPages(filesize) then Some(Mapping(program + v, PROT_USER_RX))
    else if VA_HALF - PAGE_SIZE <= v < VA_HALF then
      Some(Mapping(stack + (v - (VA_HALF - PAGE_SIZE)), PROT_USER_RW))
    else AddressSpace(before, v)
  }

  lemma ProgramLog(before: seq<Request>, filesize: nat, program: nat, stack: nat, v: nat)
    requires filesize < 0x8000_0000 && program % PAGE_SIZE == 0 && stack % PAGE_SIZE == 0
    ensures AddressSpace(before + [Request(0, MappedPages(filesize), program, PROT_USER_RX),
                                   Request(0x3f_ffff_f000, 1, stack, PROT_USER_RW)], v)
         == ProgramMap(before, filesize, program, stack, v)
  {
    var q := Request(0, MappedPages(filesize), program, PROT_USER_RX);
    var r := Request(0x3f_ffff_f000, 1, stack, PROT_USER_RW);
    UserFlags();
    assert (before + [q, r])[..|before| + 1] == before + [q] && (before + [q])[..|before|] == before;
    assert Resolve(before + [q], v) == if Covers(q, v) then Target(q, v) else Resolve(before, v);
    if Covers(r, v) {
      AlignedTarget(r, v);
    } else if Covers(q, v) {
      AlignedTarget(q, v);
    }
  }

  lemma OnePage()
    ensures MappedPages(PAGE_SIZE) == 1
  {
  }

  /** The program page and the stack page use different entries of the root. */
  lemma ProgramApart(m: Tables, root: nat, log: seq<Request>, k: nat)
    requires |log| == 2 && log[0].va == 0 && log[0].pages <= 1 && log[1].va == 0x3f_ffff_f000 && log[1].pages == 1
    requires Recorded(m, root, log, k)
    ensures k == 0
  {
    forall i: nat, j: nat, v: nat, w: nat | i <= j < 2 && Covers(log[i], v) && Covers(log[j], w) && SameSlot(v, w, 2)
      ensures i == j && v / 4096 == w / 4096
    {
    }
  }

  /** The program may be read and executed but not written, the stack read and written but not
      executed, and kernel pages are closed to user mode. */
  lemma ProgramFlags(before: seq<Request>, filesize: nat, program: nat, stack: nat)
    requires filesize < 0x8000_0000
    ensures forall v: nat {:trigger ProgramMap(before, filesize, program, stack, v)} :: v < filesize ==>
              var m := ProgramMap(before, filesize, program, stack, v);
              m.Some? && Allows(m.value.flags, true, false, true, true)
    ensures forall v: nat {:trigger ProgramMap(before, filesize, program, stack, v)} ::
              0x3f_ffff_f000 <= v < 0x40_0000_0000 ==>
              var m := ProgramMap(before, filesize, program, stack, v);
              m.Some? && Allows(m.value.flags, true, true, false, true)
    ensures forall v: nat {:trigger ProgramMap(before, filesize, program, stack, v)} :: v >= 0x40_0000_0000 ==>
              var m := ProgramMap(before, filesize, program, stack, v);
              m.Some? ==> Allows(m.value.flags, true, true, true, false)
  {
    hide Allows;
    UserAllows();
    KernelAllows();
  }

  lemma UserAllows()
    ensures Allows(PROT_USER_RX, true, false, true, true)
    ensures Allows(PROT_USER_RW, true, true, false, true)
  {
    assert PROT_USER_RX == 0xdb && PROT_USER_RW == 0xd7;
    assert Allows(0xdb, true, false, true, true);
    assert Allows(0xd7, true, true, false, true);
  }

  lemma KernelAllows()
    ensures Allows(PROT_KERNEL, true, true, true, false)
  {
  }

  lemma UserFlags()
    ensures ValidEntry(PROT_USER_RX) && LeafEntry(PROT_USER_RX)
    ensures ValidEntry(PROT_USER_RW) && LeafEntry(PROT_USER_RW)
  {
  }

  lemma AlignedTarget(r: Request, v: nat)
    requires Covers(r, v) && r.va % 4096 == 0 && r.pa % 4096 == 0 && ValidEntry(r.prot) && LeafEntry(r.prot)
    ensures Target(r, v) == Some(Mapping(r.pa + (v - r.va), r.prot))
  {
  }

  /** The tables that exist are those that the requests need, and the present branch was never
      taken (`followed` is 0) exactly if all requested pages lie in different GiB. */
  ghost predicate Recorded(m: Tables, root: nat, log: seq<Request>, followed: nat) {
    && (forall v: nat :: v < VA_HALF ==> Depth(m, root, v) == Known(log, v))
    && (followed == 0 <==> Apart(log))
  }

  lemma LinearDepth(m: Tables, root: nat)
    requires root in m && LinearRoot(m[root])
    ensures Recorded(m, root, [], 0)
  {
    forall v: nat | v < VA_HALF ensures Depth(m, root, v) == 0 { RootHalves(v); }
  }

  lemma RecordedNone(m: Tables, root: nat, log: seq<Request>, va: nat, pa: nat, prot: nat, k: nat)
    requires Recorded(m, root, log, k)
    ensures Recorded(m, root, log + [Request(va, 0, pa, prot)], k)
  {
    hide Known, Apart, Depth;
    ApartEmpty(log, va, pa, prot);
    forall v: nat ensures Known(log + [Request(va, 0, pa, prot)], v) == Known(log, v) {
      KnownEmpty(log, va, pa, prot, v);
    }
  }

  lemma RecordedDepth(m: Tables, root: nat, log: seq<Request>, va: nat, n: nat, pa: nat, prot: nat, k: nat)
    requires Recorded(m, root, log + [Request(va, n, pa, prot)], k) && va < VA_HALF
    ensures n == 0 ==> Depth(m, root, va) == Known(log, va)
  {
    if n == 0 { KnownEmpty(log, va, pa, prot, va); }
  }

  lemma RecordedNext(m1: Tables, m2: Tables, root: nat, log: seq<Request>, va: nat, n: nat, pa: nat, prot: nat, k: nat)
    requires Recorded(m1, root, log + [Request(va, n, pa, prot)], k) && va + 4096 * n < VA_HALF
    requires Deepened(m1, m2, root, va + 4096 * n, 2)
    ensures Recorded(m2, root, log + [Request(va, n + 1, pa, prot)], k + Depth(m1, root, va + 4096 * n))
  {
    hide Apart, Depth, Shared, Shares, SameSlot;
    forall v: nat | v < VA_HALF ensures Depth(m2, root, v) == Known(log + [Request(va, n + 1, pa, prot)], v) {
      KnownNext(log, va, n, pa, prot, v);
    }
    ApartNext(log, va, n, pa, prot);
    KnownNone(log + [Request(va, n, pa, prot)], va + 4096 * n);
  }

  lemma KnownNone(log: seq<Request>, v: nat)
    ensures Known(log, v) == 0 <==> !Shares(log, v, 2)
  {
    if i: nat, w: nat :| i < |log| && Covers(log[i], w) && SameSlot(w, v, 1) {
      SlotsNest(w, v);
    }
  }

  /** The translations of `m` are those of `m0` redirected by request `r`. */
  ghost predicate Redirected(m0: Tables, m: Tables, root: nat, r: Request) {
    forall v :: Translate(m, root, v) == if Covers(r, v) then Target(r, v) else Translate(m0, root, v)
  }

  ghost predicate SameTranslation(m0: Tables, m: Tables, root: nat) {
    forall v :: Translate(m, root, v) == Translate(m0, root, v)
  }

  lemma SameTranslationAgain(m0: Tables, m1: Tables, m2: Tables, root: nat)
    requires SameTranslation(m0, m1, root) && SameTranslation(m1, m2, root)
    ensures SameTranslation(m0, m2, root)
  {
  }

  lemma DeepenedStart(m: Tables, root: nat, va: nat)
    ensures Deepened(m, m, root, va, 0) && SameTranslation(m, m, root)
  {
  }

  lemma DeepenedSelf(m0: Tables, m1: Tables, root: nat, va: nat, d: nat)
    requires Deepened(m0, m1, root, va, d) && va < VA_HALF && d <= 2
    ensures Depth(m1, root, va) == Max(Depth(m0, root, va), d)
  {
  }

  lemma DeepenedAgain(m0: Tables, m1: Tables, m2: Tables, root: nat, va: nat, d: nat)
    requires Deepened(m0, m1, root, va, d) && Deepened(m1, m2, root, va, d + 1)
    ensures Deepened(m0, m2, root, va, d + 1)
  {
    hide Depth, Shared;
  }

  lemma DeepenedFollow(m: Tables, root: nat, va: nat, d: nat)
    requires va < VA_HALF && d <= Depth(m, root, va)
    ensures Deepened(m, m, root, va, d)
  {
    hide Depth, Shared;
    forall v: nat | v < VA_HALF ensures Depth(m, root, v) == Max(Depth(m, root, v), Min(Shared(va, v), d)) {
      FollowDepth(m, root, va, v, d);
    }
  }

  lemma DeepenedLink(m: Tables, root: nat, tr: Tree, f: nat, va: nat, n: nat)
    requires Shape(m, root, tr) && f in m && tr.level[f] > 0 && va < VA_HALF && OnPath(m, root, va, 2, f)
    requires m[f][Vpn(va, tr.level[f])] % 2 == 0 && n !in m && n < 0x1000_0000
    ensures var m' := Link(m, f, Vpn(va, tr.level[f]), n);
      Deepened(m, m', root, va, 3 - tr.level[f]) && m.Keys <= m'.Keys && n in m'
  {
    hide Depth, Shared, OnPath;
    RootHalves(va);
    forall v: nat | v < VA_HALF
      ensures Depth(Link(m, f, Vpn(va, tr.level[f]), n), root, v)
           == Max(Depth(m, root, v), Min(Shared(va, v), 3 - tr.level[f]))
    {
      LinkDepth(m, root, tr, f, n, va, v);
    }
  }

  lemma DeepenedStore(m0: Tables, m: Tables, root: nat, tr: Tree, f: nat, va: nat, idx: nat, e: nat)
    requires Shape(m, root, tr) && f in m && tr.level[f] == 0 && idx < 512 && Deepened(m0, m, root, va, 2)
    ensures f in m && idx < |m[f]| && Deepened(m0, Store(m, f, idx, e), root, va, 2)
  {
    hide Depth, Shared;
    forall v: nat | v < VA_HALF ensures Depth(Store(m, f, idx, e), root, v) == Depth(m, root, v) {
      StoreDepth(m, root, tr, f, idx, e, v);
    }
  }

  lemma RedirectedFrom(m0: Tables, m1: Tables, m2: Tables, root: nat, r: Request)
    requires SameTranslation(m0, m1, root) && Redirected(m1, m2, root, r)
    ensures Redirected(m0, m2, root, r)
  {
  }

  lemma WalkStart(m: Tables, root: nat, tr: Tree, va: nat)
    requires Shape(m, root, tr)
    ensures root in m && root in tr.level && tr.level[root] == 2 && OnPath(m, root, va, 2, root)
  {
  }

  lemma RedirectedNone(m: Tables, root: nat, va: nat, pa: nat, prot: nat)
    ensures Redirected(m, m, root, Request(va, 0, pa, prot))
  {
  }

  lemma RedirectedNext(m0: Tables, m1: Tables, m2: Tables, root: nat, va: nat, n: nat, pa: nat, prot: nat)
    requires Redirected(m0, m1, root, Request(va, n, pa, prot))
    requires Redirected(m1, m2, root, Request(va + 4096 * n, 1, pa + 4096 * n, prot))
    ensures Redirected(m0, m2, root, Request(va, n + 1, pa, prot))
  {
    hide Translate;
    forall v
      ensures var r := Request(va, n + 1, pa, prot);
        Translate(m2, root, v) == if Covers(r, v) then Target(r, v) else Translate(m0, root, v)
    {
      OneMorePage(va, n, pa, prot, v);
    }
  }

  lemma PointerIs(n: nat)
    ensures Or(n * 1024, PTE_V) == Pointer(n)
  {
    Powers();
    OrLow(n, PTE_V, 10);
  }

  lemma LinkIs(m: Tables, f: nat, idx: nat, n: nat)
    requires f in m && idx < |m[f]| && f != n
    ensures Or(n * 1024, PTE_V) == Pointer(n)
    ensures var row: seq<nat> := m[f][idx := Pointer(n)];
      Link(m, f, idx, n) == m[n := seq(512, _ => 0)][f := row]
  {
    PointerIs(n);
    assert Zeros() == seq(512, _ => 0);
  }

  lemma ShapeRow(m: Tables, root: nat, tr: Tree, f: nat, va: nat, level: nat)
    requires Shape(m, root, tr) && f in m && tr.level[f] == level && va < VA_HALF
    ensures root in m && root in tr.level && tr.level[root] == 2
    ensures |m[f]| == 512
    ensures 0 < level ==> Inner(root, tr, f, Vpn(va, level))
  {
  }

  lemma LinkDone(m: Tables, root: nat, tr: Tree, f: nat, va: nat, n: nat)
    requires Shape(m, root, tr) && f in m && tr.level[f] > 0 && va < VA_HALF && OnPath(m, root, va, 2, f)
    requires m[f][Vpn(va, tr.level[f])] % 2 == 0 && n !in m && n < 0x1000_0000
    ensures var idx := Vpn(va, tr.level[f]); var m' := Link(m, f, idx, n);
      && Shape(m', root, LinkTree(tr, f, idx, n)) && OnPath(m', root, va, 2, n)
      && SameTranslation(m, m', root)
  {
    var idx := Vpn(va, tr.level[f]);
    RootHalves(va);
    LinkShape(m, root, tr, f, idx, n);
    LinkPath(m, root, tr, f, idx, n, root, va, 2);
    forall v ensures Translate(Link(m, f, idx, n), root, v) == Translate(m, root, v) {
      LinkTranslate(m, root, tr, f, idx, n, v);
    }
  }

  lemma LeafWritten(m: Tables, root: nat, tr: Tree, f: nat, va: nat, pa: nat, prot: nat)
    requires Shape(m, root, tr) && f in m && tr.level[f] == 0 && va < VA_HALF && OnPath(m, root, va, 2, f)
    requires pa < 0x100_0000_0000_0000 && prot < 1024
    ensures var m' := Store(m, f, Vpn(va, 0), Or(pa / 4096 * 1024, prot));
      && Shape(m', root, tr) && m'.Keys == m.Keys && Redirected(m, m', root, Request(va, 1, pa, prot))
  {
    hide Shape, OnPath, Translate, ValidEntry, LeafEntry, Target, Or;
    var e := Or(pa / 4096 * 1024, prot);
    Powers();
    OrLow(pa / 4096, prot, 10);
    ShapeRow(m, root, tr, f, va, 0);
    StoreShape(m, root, tr, f, Vpn(va, 0), e);
    forall v: nat
      ensures var r := Request(va, 1, pa, prot);
        Translate(Store(m, f, Vpn(va, 0), e), root, v) == if Covers(r, v) then Target(r, v) else Translate(m, root, v)
    {
      StoreTranslate(m, root, tr, f, va, e, v);
      if v < VA_HALF && v / 4096 == va / 4096 { LeafTarget(va, pa, prot, v); }
    }
  }

  lemma LeafTarget(va: nat, pa: nat, prot: nat, v: nat)
    requires pa < 0x100_0000_0000_0000 && prot < 1024 && v < VA_HALF && v / 4096 == va / 4096
    ensures var e := pa / 4096 * 1024 + prot;
      Target(Request(va, 1, pa, prot), v) == if ValidEntry(e) && LeafEntry(e) then LeafMapping(e, v, 0) else None
  {
    LeafBits(pa / 4096, prot);
  }
}

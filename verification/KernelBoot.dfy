/** `setup_vm` and `drop_identity_map` of the higher-half kernel: 2 MiB leaves in two tables,
    one for the identity map and one for the high half, and one 2 MiB leaf for the UART. */
module KernelBoot {
  import opened Bits
  import opened Machine
  import opened Wrappers
  import opened Sv39

  const PMD_SIZE: nat := 0x20_0000
  const UART: nat := 0x1000_0000
  const PROT_NON_LEAF: nat := 1 + 32
  const ID_MAP: nat := 0
  const HH_MAP: nat := 1
  const UART_MAP: nat := 2

  /** `MAKE_PTE`. */
  function MakePte(pa: nat, flags: nat): nat {
    Or(pa / 4096 * 1024, flags)
  }

  /** The load address rounded down to 2 MiB. */
  function LoadBase(start: nat): nat {
    AndNot(start, PMD_SIZE - 1)
  }

  /** The physical address that the loop stores in slot `s` when it starts at address `base`:
      slots below the first one wrap to the next GiB. */
  function SlotAddress(base: nat, s: nat): nat {
    base / GIB * GIB + s * PMD_SIZE + (if s < base / PMD_SIZE % 512 then GIB else 0)
  }

  /** Where the linear map sends offset `d` of the GiB that contains `base`. */
  function Linear(base: nat, d: nat): nat {
    if d < base then d + GIB else d
  }

  /** The address space after `setup_vm` for a kernel at `base`. */
  function BootMap(base: nat, v: nat): Option<Mapping> {
    if v < VA_HALF then
      if v / GIB == base / GIB then Some(Mapping(Linear(base, v), PROT_KERNEL)) else None
    else HighMap(base, v)
  }

  /** Its high half: the UART page, and the linear map unless it shares the UART's GiB. */
  function HighMap(base: nat, v: nat): Option<Mapping> {
    if PAGE_OFFSET <= v < TWO_TO_THE_64 then
      var d := v - PAGE_OFFSET;
      if d / GIB == UART / GIB then
        if d / PMD_SIZE == UART / PMD_SIZE then Some(Mapping(d, PROT_KERNEL)) else None
      else if d / GIB == base / GIB then Some(Mapping(Linear(base, d), PROT_KERNEL))
      else None
    else None
  }

  // ----- the entries -----

  lemma EntryIs(pa: nat)
    requires pa % PMD_SIZE == 0 && pa < 0x100_0000_0000_0000
    ensures var e := MakePte(pa, PROT_KERNEL);
      ValidEntry(e) && LeafEntry(e) && Ppn(e) == pa / 4096 && e % 1024 == PROT_KERNEL
  {
    hide Or, Pow2;
    Powers();
    OrLow(pa / 4096, PROT_KERNEL, 10);
    LeafBits(pa / 4096, PROT_KERNEL);
    assert Bit(239, 0) && Bit(239, 1);
  }

  lemma NonLeafIs(frame: nat)
    requires frame < 0x1000_0000_0000
    ensures var e := MakePte(frame * 4096, PROT_NON_LEAF);
      ValidEntry(e) && !LeafEntry(e) && Ppn(e) == frame && e % 1024 == PROT_NON_LEAF
  {
    hide Or, Pow2;
    Powers();
    OrLow(frame, PROT_NON_LEAF, 10);
    LeafBits(frame, PROT_NON_LEAF);
    assert Bit(33, 0) && !Bit(33, 1) && !Bit(33, 2) && !Bit(33, 3);
  }

  // ----- the tables as values -----

  /** Rows of the identity and high-half tables after the loop. */
  ghost predicate LinearRow(row: seq<nat>, base: nat) {
    |row| == 512 && forall s :: 0 <= s < 512 ==> row[s] == MakePte(SlotAddress(base, s), PROT_KERNEL)
  }

  ghost predicate UartRow(row: seq<nat>) {
    |row| == 512 && forall s :: 0 <= s < 512 ==> row[s] == if s == 128 then MakePte(UART, PROT_KERNEL) else 0
  }

  /** The root after `setup_vm`: later assignments win where slots coincide. */
  ghost predicate RootRow(row: seq<nat>, base: nat, pmd: nat) {
    && |row| == 512
    && forall i :: 0 <= i < 512 ==> row[i] == RootEntry(i, base, pmd)
  }

  function RootEntry(i: nat, base: nat, pmd: nat): nat {
    if i == 256 then MakePte((pmd + UART_MAP) * 4096, PROT_NON_LEAF)
    else if i == base / GIB then MakePte((pmd + ID_MAP) * 4096, PROT_NON_LEAF)
    else if i == 256 + base / GIB then MakePte((pmd + HH_MAP) * 4096, PROT_NON_LEAF)
    else 0
  }

  ghost predicate Tabled(m: Tables, pgd: nat, pmd: nat) {
    && pmd + 4 <= 0x1000_0000_0000 && pgd in m && pmd in m && pmd + 1 in m && pmd + 2 in m
  }

  lemma LinearWalk(m: Tables, frame: nat, base: nat, v: nat, d: nat)
    requires frame in m && LinearRow(m[frame], base) && base % PMD_SIZE == 0 && base < VA_HALF
    requires d < VA_HALF && d / GIB == base / GIB && (v == d || v == PAGE_OFFSET + d)
    ensures Walk(m, frame, v, 1) == Some(Mapping(Linear(base, d), PROT_KERNEL))
  {
    hide MakePte, SlotAddress, ValidEntry, LeafEntry, Linear, Vpn;
    var s := Vpn(v, 1);
    MiddleIndex(v, d);
    SlotIs(base, d);
    EntryIs(SlotAddress(base, s));
    AlignedSplit(SlotAddress(base, s));
  }

  lemma AlignedSplit(a: nat)
    requires a % PMD_SIZE == 0
    ensures a / 4096 % 512 == 0 && a / 4096 * 4096 == a
  {
    var q := a / PMD_SIZE;
    assert a == q * PMD_SIZE;
    assert a / 4096 == q * 512;
  }

  /** Index into a middle table, and offset in a 2 MiB page, of both views of `d`. */
  lemma MiddleIndex(v: nat, d: nat)
    requires d < VA_HALF && (v == d || v == PAGE_OFFSET + d)
    ensures Vpn(v, 1) == d / PMD_SIZE % 512 && v % PMD_SIZE == d % PMD_SIZE
  {
    assert d / 4096 / 512 == d / PMD_SIZE;
    if v != d {
      assert v / 4096 == 0xF_FFFF_FC00_0000 + d / 4096;
      assert v / 4096 / 512 == 0x7FF_FFFE_0000 + d / 4096 / 512;
    }
  }

  lemma SlotIs(base: nat, d: nat)
    requires base % PMD_SIZE == 0 && base < VA_HALF && d < VA_HALF && d / GIB == base / GIB
    ensures var a := SlotAddress(base, d / PMD_SIZE % 512);
      a % PMD_SIZE == 0 && a < VA_HALF + GIB && a + d % PMD_SIZE == Linear(base, d)
  {
    Decompose(base);
    Decompose(d);
    SlotAligned(base, d / PMD_SIZE % 512);
    SlotOrder(d / GIB, d / PMD_SIZE % 512, base / PMD_SIZE % 512, d % PMD_SIZE);
  }

  lemma SlotOrder(g: nat, s: nat, f: nat, r: nat)
    requires r < PMD_SIZE
    ensures g * GIB + s * PMD_SIZE + r < g * GIB + f * PMD_SIZE <==> s < f
  {
  }

  lemma Decompose(x: nat)
    ensures x == x / GIB * GIB + x / PMD_SIZE % 512 * PMD_SIZE + x % PMD_SIZE
  {
    var q := x / PMD_SIZE;
    assert q / 512 == x / GIB;
  }

  lemma UartWalk(m: Tables, frame: nat, v: nat, d: nat)
    requires frame in m && UartRow(m[frame]) && d < GIB && v == PAGE_OFFSET + d
    ensures Walk(m, frame, v, 1) == if d / PMD_SIZE == UART / PMD_SIZE then Some(Mapping(d, PROT_KERNEL)) else None
  {
    MiddleIndex(v, d);
    EntryIs(UART);
    assert !Bit(0, 0);
  }

  /** The hardware view of the finished tables is `BootMap`. */
  lemma BootTranslate(m: Tables, pgd: nat, pmd: nat, base: nat, v: nat)
    requires Tabled(m, pgd, pmd) && base % PMD_SIZE == 0 && base < VA_HALF
    requires RootRow(m[pgd], base, pmd)
    requires LinearRow(m[pmd + ID_MAP], base) && LinearRow(m[pmd + HH_MAP], base) && UartRow(m[pmd + UART_MAP])
    ensures Translate(m, pgd, v) == BootMap(base, v)
  {
    hide MakePte, ValidEntry, LeafEntry, LinearRow, UartRow, Vpn, Linear;
    if CanonicalAddress(v) {
      NonLeafIs(pmd + ID_MAP);
      NonLeafIs(pmd + HH_MAP);
      NonLeafIs(pmd + UART_MAP);
      ZeroInvalid();
      if v < VA_HALF {
        LowHalfIndex(v);
        if v / GIB == base / GIB { LinearWalk(m, pmd + ID_MAP, base, v, v); }
      } else {
        var d := v - PAGE_OFFSET;
        HighHalfIndex(d);
        if d / GIB == 0 {
          UartWalk(m, pmd + UART_MAP, v, d);
        } else if d / GIB == base / GIB {
          LinearWalk(m, pmd + HH_MAP, base, v, d);
        }
      }
    }
  }

  lemma LowHalfIndex(v: nat)
    requires v < VA_HALF
    ensures Vpn(v, 2) == v / GIB
  {
    assert v / 4096 / 0x4_0000 == v / GIB;
  }

  /** With the lower half of the root cleared, low addresses fault and high ones are unchanged. */
  lemma DropTranslate(m: Tables, m': Tables, pgd: nat, v: nat)
    requires pgd in m && |m[pgd]| == 512 && pgd in m' && |m'[pgd]| == 512 && m' == m[pgd := m'[pgd]]
    requires forall i :: 0 <= i < 512 ==> m'[pgd][i] == if i < 256 then 0 else m[pgd][i]
    requires forall i :: 256 <= i < 512 && ValidEntry(m[pgd][i]) && !LeafEntry(m[pgd][i]) ==>
               FlatBelow(m, pgd, Ppn(m[pgd][i]))
    ensures Translate(m', pgd, v) == if v < VA_HALF then None else Translate(m, pgd, v)
  {
    if CanonicalAddress(v) {
      RootHalves(v);
      assert !Bit(0, 0);
      if v >= VA_HALF {
        var e := m[pgd][Vpn(v, 2)];
        if ValidEntry(e) && !LeafEntry(e) { FlatWalk(m, m', pgd, Ppn(e), v); }
      }
    }
  }

  /** A middle table other than the root, with leaves only. */
  ghost predicate FlatBelow(m: Tables, pgd: nat, f: nat) {
    f != pgd && f in m && |m[f]| == 512 && forall s :: 0 <= s < 512 ==> ValidEntry(m[f][s]) ==> LeafEntry(m[f][s])
  }

  lemma FlatWalk(m: Tables, m': Tables, pgd: nat, f: nat, v: nat)
    requires FlatBelow(m, pgd, f) && f in m' && m'[f] == m[f]
    ensures Walk(m', f, v, 1) == Walk(m, f, v, 1)
  {
  }

  // ----- the properties of the boot map -----

  /** From the load address to the end of its GiB the identity map is linear, and the high half
      agrees with it exactly if that GiB is not the UART's, or in the UART page. */
  lemma BothViewsAgree(base: nat, d: nat)
    requires base <= d < VA_HALF && d / GIB == base / GIB
    ensures BootMap(base, d) == Some(Mapping(d, PROT_KERNEL))
    ensures BootMap(base, PAGE_OFFSET + d) == BootMap(base, d) <==> base >= GIB || d / PMD_SIZE == UART / PMD_SIZE
  {
    assert base / GIB == 0 <==> base < GIB;
  }

  /** The kernel is reachable at its high address exactly if it is not loaded in the first GiB
      (whose root slot is taken over by the UART table) or lies in the UART page itself. */
  lemma KernelReachable(base: nat)
    requires base < VA_HALF && base % PMD_SIZE == 0
    ensures BootMap(base, PAGE_OFFSET + base) == Some(Mapping(base, PROT_KERNEL)) <==> base >= GIB || base == UART
  {
    assert base / GIB == 0 <==> base < GIB;
    if base / PMD_SIZE == UART / PMD_SIZE { assert base == UART; }
  }

  /** A kernel at 32 MiB: its high address faults. */
  lemma LowKernelUnreachable()
    ensures BootMap(0x200_0000, 0xffff_ffc0_0200_0000) == None
  {
  }

  lemma UartMapped(base: nat, o: nat)
    requires o < 0x20_0000
    ensures BootMap(base, 0xffff_ffc0_1000_0000 + o) == Some(Mapping(0x1000_0000 + o, 0xef))
  {
  }

  /** Every mapping is for the kernel, with all accesses allowed, and global (bit G). */
  lemma BootFlags(base: nat, v: nat)
    ensures var m := BootMap(base, v);
      m.Some? ==> Allows(m.value.flags, true, true, true, false) && Bit(m.value.flags, 5)
  {
  }

  /** The used root entries point to tables and are global: their low bits are V and G only. */
  lemma RootFlags(row: seq<nat>, base: nat, pmd: nat, i: nat)
    requires RootRow(row, base, pmd) && pmd + 4 <= 0x1000_0000_0000 && i < 512
    ensures row[i] == 0 || row[i] % 1024 == 0x21
  {
    hide MakePte;
    NonLeafIs(pmd + ID_MAP);
    NonLeafIs(pmd + HH_MAP);
    NonLeafIs(pmd + UART_MAP);
  }

  // ----- the static arrays -----

  /** Step of the loop at which slot `s` is written, when the first slot is `first`. */
  function StepOf(s: nat, first: nat): int {
    if s >= first then s - first else s + 512 - first
  }

  /** The high-half view of a physical address, in 64 bits. */
  function VirtualOf(pa: nat): nat {
    (PAGE_OFFSET + pa) % TWO_TO_THE_64
  }

  lemma VirtualNext(pa: nat)
    requires pa < VA_HALF + GIB
    ensures (VirtualOf(pa) + PMD_SIZE) % TWO_TO_THE_64 == VirtualOf(pa + PMD_SIZE)
  {
    assert VirtualOf(pa) == PAGE_OFFSET + pa || VirtualOf(pa) == PAGE_OFFSET + pa - TWO_TO_THE_64;
  }

  lemma StepBounds(first: nat)
    requires first < 512
    ensures forall s {:trigger StepOf(s, first)} :: 0 <= s < 512 ==> 0 <= StepOf(s, first) < 512
  {
  }

  /** Entry `s` of table `k` after `i` rounds of the loop. */
  function AfterSteps(base: nat, k: nat, s: nat, i: nat): nat {
    if k < 2 && StepOf(s, base / PMD_SIZE % 512) < i then MakePte(SlotAddress(base, s), PROT_KERNEL) else 0
  }

  class BootTables {
    const pgdFrame: nat
    const pmdFrame: nat
    const pgd: array<nat>
    const pmd: array2<nat>

    ghost predicate Placed()
    {
      && pgd.Length == 512 && pmd.Length0 == 4 && pmd.Length1 == 512
      && pmdFrame + 4 <= 0x1000_0000_0000 && !(pmdFrame <= pgdFrame < pmdFrame + 4)
    }

    ghost function Row(k: nat): (r: seq<nat>)
      requires pmd.Length1 == 512 && k < pmd.Length0
      reads pmd
      ensures |r| == 512 && forall s :: 0 <= s < 512 ==> r[s] == pmd[k, s]
    {
      seq(512, s requires 0 <= s < 512 reads pmd => pmd[k, s])
    }

    /** The tables as the hardware finds them in memory. */
    ghost function Memory(): (m: Tables)
      requires Placed()
      reads pgd, pmd
    {
      map[pmdFrame := Row(0), pmdFrame + 1 := Row(1), pmdFrame + 2 := Row(2), pmdFrame + 3 := Row(3),
          pgdFrame := pgd[..]]
    }

    /** The tables hold what `setup_vm` makes of a kernel at `base`. */
    ghost predicate Booted(base: nat)
      reads pgd, pmd
    {
      && Placed() && base % PMD_SIZE == 0 && base < VA_HALF
      && RootRow(pgd[..], base, pmdFrame)
      && LinearRow(Row(ID_MAP), base) && LinearRow(Row(HH_MAP), base) && UartRow(Row(UART_MAP))
    }

    /** The arrays of the image, all zero, at page-aligned addresses. */
    constructor (pgdAt: nat, pmdAt: nat)
      requires pmdAt + 4 <= 0x1000_0000_0000 && !(pmdAt <= pgdAt < pmdAt + 4)
      ensures Placed() && pgdFrame == pgdAt && pmdFrame == pmdAt
      ensures forall i :: 0 <= i < 512 ==> pgd[i] == 0
      ensures forall k, s :: 0 <= k < 4 && 0 <= s < 512 ==> pmd[k, s] == 0
      ensures fresh(pgd) && fresh(pmd)
    {
      pgdFrame := pgdAt;
      pmdFrame := pmdAt;
      pgd := new nat[512](_ => 0);
      pmd := new nat[4, 512]((_, _) => 0);
    }

    /** The 512-step loop: both views of each 2 MiB page from `base` on, each slot once. */
    method FillLinear(base: nat)
      requires Placed() && base % PMD_SIZE == 0 && base < VA_HALF
      requires forall k, s :: 0 <= k < 4 && 0 <= s < 512 ==> pmd[k, s] == 0
      modifies pmd
      ensures forall k, s :: 0 <= k < 4 && 0 <= s < 512 ==> pmd[k, s] == AfterSteps(base, k, s, 512)
    {
      hide MakePte, SlotAddress, StepOf, VirtualOf;
      var pa := base;
      var va := VirtualOf(pa);
      var i := 0;
      StepBounds(base / PMD_SIZE % 512);
      while i < 512
        invariant 0 <= i <= 512
        invariant pa == base + i * PMD_SIZE && va == VirtualOf(pa)
        invariant forall k, s :: 0 <= k < 4 && 0 <= s < 512 ==> pmd[k, s] == AfterSteps(base, k, s, i)
      {
        LoopSlot(base, i);
        VirtualNext(pa);
        pmd[HH_MAP, va / PMD_SIZE % 512] := MakePte(pa, PROT_KERNEL);
        pmd[ID_MAP, pa / PMD_SIZE % 512] := MakePte(pa, PROT_KERNEL);
        va, pa := (va + PMD_SIZE) % TWO_TO_THE_64, pa + PMD_SIZE;
        i := i + 1;
      }
    }

    /** A load address that the identity map can show lies in the lower half of Sv39. */
    method SetupVm(start: nat)
      requires Placed() && start < VA_HALF
      requires forall i :: 0 <= i < 512 ==> pgd[i] == 0
      requires forall k, s :: 0 <= k < 4 && 0 <= s < 512 ==> pmd[k, s] == 0
      modifies pgd, pmd
      ensures Booted(LoadBase(start))
      ensures forall v :: Translate(Memory(), pgdFrame, v) == BootMap(LoadBase(start), v)
    {
      hide MakePte, LoadBase, Translate, SlotAddress, BootMap, AfterSteps, RootRow, LinearRow, UartRow, VirtualOf;
      LoadBaseIs(start);
      ghost var row0 := pgd[..];
      var uartVir := 0xffff_ffc0_1000_0000;
      var pa := LoadBase(start);
      var va := VirtualOf(pa);
      SlotsOf(pa);
      pgd[va / GIB % 512] := MakePte((pmdFrame + HH_MAP) * 4096, PROT_NON_LEAF);
      pgd[pa / GIB % 512] := MakePte((pmdFrame + ID_MAP) * 4096, PROT_NON_LEAF);
      FillLinear(pa);
      pgd[uartVir / GIB % 512] := MakePte((pmdFrame + UART_MAP) * 4096, PROT_NON_LEAF);
      pmd[UART_MAP, uartVir / PMD_SIZE % 512] := MakePte(UART, PROT_KERNEL);
      RootWritten(row0, pgd[..], pa, pmdFrame);
      RowsWritten(pa);
      BootedTranslates(pa);
    }

    /** The rows after the loop and the write for the UART. */
    lemma RowsWritten(base: nat)
      requires Placed() && base < VA_HALF
      requires forall k, s :: 0 <= k < 4 && 0 <= s < 512 ==>
                 pmd[k, s] == if k == UART_MAP && s == 128 then MakePte(UART, PROT_KERNEL)
                              else AfterSteps(base, k, s, 512)
      ensures LinearRow(Row(ID_MAP), base) && LinearRow(Row(HH_MAP), base) && UartRow(Row(UART_MAP))
    {
      hide MakePte, SlotAddress, StepOf;
      StepBounds(base / PMD_SIZE % 512);
    }

    lemma BootedTranslates(base: nat)
      requires Booted(base)
      ensures forall v :: Translate(Memory(), pgdFrame, v) == BootMap(base, v)
    {
      hide MakePte, Translate, BootMap, RootRow, LinearRow, UartRow;
      forall v ensures Translate(Memory(), pgdFrame, v) == BootMap(base, v) {
        BootTranslate(Memory(), pgdFrame, pmdFrame, base, v);
      }
    }

    method DropIdentityMap(ghost base: nat)
      requires Booted(base)
      modifies pgd
      ensures Placed()
      ensures forall v: nat :: Translate(Memory(), pgdFrame, v) == if v < VA_HALF then None else HighMap(base, v)
    {
      ghost var m := Memory();
      var i := 0;
      while i < 0x100
        invariant 0 <= i <= 0x100
        invariant forall k :: 0 <= k < 512 ==> pgd[k] == if k < i then 0 else old(pgd[k])
      {
        pgd[i] := 0;
        i := i + 1;
      }
      DropDone(m, base);
    }

    lemma DropDone(m: Tables, base: nat)
      requires Placed() && pgdFrame in m && |m[pgdFrame]| == 512
      requires base % PMD_SIZE == 0 && base < VA_HALF && RootRow(m[pgdFrame], base, pmdFrame)
      requires Tabled(m, pgdFrame, pmdFrame) && Memory() == m[pgdFrame := Memory()[pgdFrame]]
      requires LinearRow(m[pmdFrame + ID_MAP], base) && LinearRow(m[pmdFrame + HH_MAP], base)
      requires UartRow(m[pmdFrame + UART_MAP])
      requires forall k :: 0 <= k < 512 ==> pgd[k] == if k < 256 then 0 else m[pgdFrame][k]
      ensures forall v: nat :: Translate(Memory(), pgdFrame, v) == if v < VA_HALF then None else HighMap(base, v)
    {
      FlatRows(m, pgdFrame, pmdFrame, base);
      forall v: nat ensures Translate(Memory(), pgdFrame, v) == if v < VA_HALF then None else HighMap(base, v) {
        DropTranslate(m, Memory(), pgdFrame, v);
        BootTranslate(m, pgdFrame, pmdFrame, base, v);
      }
    }
  }

  /** The three writes to the empty root. */
  lemma RootWritten(row0: seq<nat>, row: seq<nat>, base: nat, pmd: nat)
    requires |row0| == 512 && (forall i :: 0 <= i < 512 ==> row0[i] == 0) && base < VA_HALF
    requires base / GIB < 256
    requires row == row0[256 + base / GIB := MakePte((pmd + HH_MAP) * 4096, PROT_NON_LEAF)]
                        [base / GIB := MakePte((pmd + ID_MAP) * 4096, PROT_NON_LEAF)]
                        [256 := MakePte((pmd + UART_MAP) * 4096, PROT_NON_LEAF)]
    ensures RootRow(row, base, pmd)
  {
    hide MakePte;
  }

  lemma LoadBaseIs(start: nat)
    ensures var b := LoadBase(start); b % PMD_SIZE == 0 && b <= start < b + PMD_SIZE
  {
    assert Pow2(21) == PMD_SIZE by { assert Pow2(12) == 4096 by { Powers(); } assert Pow2(16) == 0x1_0000; }
    AndNotMask(start, 21);
    RoundDownIs(start, 21);
    AlignedIsMod(LoadBase(start), 21);
  }

  lemma SlotsOf(base: nat)
    requires base < VA_HALF
    ensures base / GIB % 512 == base / GIB < 256
    ensures VirtualOf(base) / GIB % 512 == 256 + base / GIB
  {
    var v := base + PAGE_OFFSET;
    assert v / GIB == 0x3_FFFF_FF00 + base / GIB;
  }

  /** The slots that step `i` of the loop writes, through either view. */
  lemma LoopSlot(base: nat, i: nat)
    requires base % PMD_SIZE == 0 && base < VA_HALF && i < 512
    ensures var pa := base + i * PMD_SIZE; var first := base / PMD_SIZE % 512;
      var s := pa / PMD_SIZE % 512;
      && VirtualOf(pa) / PMD_SIZE % 512 == s && StepOf(s, first) == i && SlotAddress(base, s) == pa
      && forall r :: 0 <= r < 512 && StepOf(r, first) == i ==> r == s
  {
    var q := base / PMD_SIZE;
    assert (base + i * PMD_SIZE) / PMD_SIZE == q + i;
    HighSlot(base + i * PMD_SIZE);
    WrapIndex(q, i);
    Decompose(base);
  }

  lemma HighSlot(pa: nat)
    requires pa < VA_HALF + GIB
    ensures VirtualOf(pa) / PMD_SIZE % 512 == pa / PMD_SIZE % 512
  {
    var va := VirtualOf(pa);
    if PAGE_OFFSET + pa < TWO_TO_THE_64 {
      assert va / PMD_SIZE == 0x7FF_FFFE_0000 + pa / PMD_SIZE;
    } else {
      assert va == pa - VA_HALF;
      assert va / PMD_SIZE == pa / PMD_SIZE - 0x2_0000;
    }
  }

  lemma WrapIndex(q: nat, i: nat)
    requires i < 512
    ensures (q + i) % 512 == if q % 512 + i < 512 then q % 512 + i else q % 512 + i - 512
  {
  }

  lemma FlatRows(m: Tables, pgd: nat, pmd: nat, base: nat)
    requires Tabled(m, pgd, pmd) && base % PMD_SIZE == 0 && base < VA_HALF && RootRow(m[pgd], base, pmd)
    requires !(pmd <= pgd < pmd + 4)
    requires LinearRow(m[pmd + ID_MAP], base) && LinearRow(m[pmd + HH_MAP], base) && UartRow(m[pmd + UART_MAP])
    ensures forall i :: 256 <= i < 512 && ValidEntry(m[pgd][i]) && !LeafEntry(m[pgd][i]) ==>
               FlatBelow(m, pgd, Ppn(m[pgd][i]))
  {
    hide MakePte, SlotAddress, ValidEntry, LeafEntry, Bit;
    LinearFlat(m, pgd, pmd + ID_MAP, base);
    LinearFlat(m, pgd, pmd + HH_MAP, base);
    UartFlat(m, pgd, pmd + UART_MAP);
    NonLeafIs(pmd + ID_MAP);
    NonLeafIs(pmd + HH_MAP);
    NonLeafIs(pmd + UART_MAP);
    ZeroInvalid();
  }

  lemma ZeroInvalid()
    ensures !ValidEntry(0)
  {
    assert !Bit(0, 0);
  }

  lemma LinearFlat(m: Tables, pgd: nat, f: nat, base: nat)
    requires f in m && f != pgd && LinearRow(m[f], base) && base < VA_HALF
    ensures FlatBelow(m, pgd, f)
  {
    hide MakePte, SlotAddress, ValidEntry, LeafEntry;
    forall s | 0 <= s < 512 ensures LeafEntry(m[f][s]) {
      SlotAligned(base, s);
      EntryIs(SlotAddress(base, s));
    }
  }

  lemma UartFlat(m: Tables, pgd: nat, f: nat)
    requires f in m && f != pgd && UartRow(m[f])
    ensures FlatBelow(m, pgd, f)
  {
    hide MakePte, ValidEntry, LeafEntry;
    EntryIs(UART);
    ZeroInvalid();
  }

  lemma SlotAligned(base: nat, s: nat)
    requires base < VA_HALF && s < 512
    ensures SlotAddress(base, s) % PMD_SIZE == 0 && SlotAddress(base, s) < 0x100_0000_0000_0000
  {
    var q := base / GIB * 512 + s + (if s < base / PMD_SIZE % 512 then 512 else 0);
    ModUnique(SlotAddress(base, s), PMD_SIZE, q, 0);
  }
}

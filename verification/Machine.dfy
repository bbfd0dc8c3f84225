/** Integer widths of the C programs, and the memory layout that the kernels share. */
module Machine {
  const TWO_TO_THE_32: nat := 0x1_0000_0000
  const TWO_TO_THE_64: nat := 0x1_0000_0000_0000_0000

  const PAGE_SIZE: nat := 0x1000
  const GIB: nat := 0x4000_0000
  const PAGE_OFFSET: nat := 0xffff_ffc0_0000_0000
  const PROT_KERNEL: nat := 1 + 2 + 4 + 8 + 32 + 64 + 128

  /** The value that a 32-bit `int` holds after it was computed as `x`. */
  function ToInt(x: int): (r: int)
    ensures -0x8000_0000 <= r < 0x8000_0000
  {
    (x + 0x8000_0000) % TWO_TO_THE_32 - 0x8000_0000
  }

  /** Conversion of an `int` to `unsigned int`. */
  function ToUint(i: int): (r: nat)
    ensures r < TWO_TO_THE_32
  {
    i % TWO_TO_THE_32
  }

  /** Conversion of an `int` to `unsigned long`. */
  function ToUlong(i: int): (r: nat)
    ensures r < TWO_TO_THE_64
  {
    i % TWO_TO_THE_64
  }

  /** The value is kept exactly if it fits. */
  lemma ToIntIs(x: int)
    ensures ToInt(x) == x <==> -0x8000_0000 <= x < 0x8000_0000
    ensures ToUint(ToInt(x)) == ToUint(x)
  {
  }

  /** Whole turns are lost. */
  lemma Turns(x: int, k: int)
    ensures ToInt(x + k * TWO_TO_THE_32) == ToInt(x) && ToUint(x + k * TWO_TO_THE_32) == ToUint(x)
  {
    ModTurns(x, k);
    ModTurns(x + 0x8000_0000, k);
  }

  lemma ModTurns(y: int, k: int)
    ensures (y + k * TWO_TO_THE_32) % TWO_TO_THE_32 == y % TWO_TO_THE_32
  {
    var z := y + k * TWO_TO_THE_32;
    var d := z / TWO_TO_THE_32 - y / TWO_TO_THE_32 - k;
    assert d * TWO_TO_THE_32 == y % TWO_TO_THE_32 - z % TWO_TO_THE_32;
  }

  lemma ToIntTurns(x: int) returns (k: int)
    ensures ToInt(x) == x + k * TWO_TO_THE_32
  {
    k := 0 - (x + 0x8000_0000) / TWO_TO_THE_32;
  }

  /** Wrapping an operand first makes no difference to a wrapped sum. */
  lemma ToIntSum(x: int, y: int)
    ensures ToInt(ToInt(x) + y) == ToInt(x + y) && ToUint(ToInt(x) + y) == ToUint(x + y)
  {
    var k := ToIntTurns(x);
    Turns(x + y, k);
  }
}

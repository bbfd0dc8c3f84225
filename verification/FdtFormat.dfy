/** Flattened devicetrees (Devicetree Specification v0.4, sections 5.4 and 5.5): trees, the
    structure block that encodes them, and the reads of a scanner over its bytes. */
module FdtFormat {
  import opened Bits
  import opened Bytes
  import opened Machine

  const FDT_BEGIN_NODE: nat := 1
  const FDT_END_NODE: nat := 2
  const FDT_PROP: nat := 3
  const FDT_NOP: nat := 4
  const FDT_END: nat := 9

  /** What stands between FDT_BEGIN_NODE and FDT_END_NODE of a node, in order. */
  datatype Items =
    | Nil
    | Prop(nameOff: nat, value: seq<byte>, rest: Items)
    | Nop(rest: Items)
    | Node(name: seq<byte>, body: Items, rest: Items)

  /** Numbers fit their 32-bit fields and names contain no NUL. */
  predicate WellFormed(t: Items) {
    match t
    case Nil => true
    case Prop(nameOff, value, rest) => nameOff < 0x1_0000_0000 && |value| < 0x1_0000_0000 && WellFormed(rest)
    case Nop(rest) => WellFormed(rest)
    case Node(name, body, rest) => 0 !in name && WellFormed(body) && WellFormed(rest)
  }

  // ----- the encoding -----

  function BigEndian(x: nat): (r: seq<byte>)
    requires x < 0x1_0000_0000
    ensures |r| == 4
  {
    [x / 0x100_0000, x / 0x1_0000 % 256, x / 256 % 256, x % 256]
  }

  function Padded(s: seq<byte>): (r: seq<byte>)
    ensures |r| == |s| + Padding(|s|) && |r| % 4 == 0
  {
    s + Zeros(Padding(|s|))
  }

  /** FDT_BEGIN_NODE, the name with its NUL, padding. */
  function NodeHead(name: seq<byte>): (r: seq<byte>)
    ensures |r| % 4 == 0 && |r| == 4 + |name| + 1 + Padding(|name| + 1)
  {
    BigEndian(FDT_BEGIN_NODE) + Padded(name + [0])
  }

  lemma TwelveMore(value: seq<byte>)
    ensures (12 + |Padded(value)|) % 4 == 0
  {
  }

  function PropToken(nameOff: nat, value: seq<byte>): (r: seq<byte>)
    requires nameOff < 0x1_0000_0000 && |value| < 0x1_0000_0000
    ensures |r| % 4 == 0 && |r| == 12 + |value| + Padding(|value|)
  {
    TwelveMore(value);
    BigEndian(FDT_PROP) + BigEndian(|value|) + BigEndian(nameOff) + Padded(value)
  }

  function Flat(t: Items): (r: seq<byte>)
    requires WellFormed(t)
    ensures |r| % 4 == 0
  {
    match t
    case Nil => []
    case Prop(nameOff, value, rest) =>
      Words(PropToken(nameOff, value), Flat(rest));
      PropToken(nameOff, value) + Flat(rest)
    case Nop(rest) =>
      Words(BigEndian(FDT_NOP), Flat(rest));
      BigEndian(FDT_NOP) + Flat(rest)
    case Node(name, body, rest) =>
      Words(BigEndian(FDT_END_NODE), Flat(rest));
      Words(Flat(body), BigEndian(FDT_END_NODE) + Flat(rest));
      Words(NodeHead(name), Flat(body) + (BigEndian(FDT_END_NODE) + Flat(rest)));
      NodeHead(name) + (Flat(body) + (BigEndian(FDT_END_NODE) + Flat(rest)))
  }

  lemma Words(a: seq<byte>, b: seq<byte>)
    requires |a| % 4 == 0 && |b| % 4 == 0
    ensures |a + b| % 4 == 0
  {
  }

  // ----- the reads -----

  /** `*(uint32_t*)p` on a little-endian machine. */
  function Load32(b: seq<byte>, off: nat): nat
    requires off + 4 <= |b|
  {
    (b[off] as int) + 256 * (b[off + 1] as int) + 0x1_0000 * (b[off + 2] as int) + 0x100_0000 * (b[off + 3] as int)
  }

  function Bswap32(x: nat): nat {
    x % 256 * 0x100_0000 + x / 256 % 256 * 0x1_0000 + x / 0x1_0000 % 256 * 256 + x / 0x100_0000
  }

  function Token(b: seq<byte>, off: nat): nat
    requires off + 4 <= |b|
  {
    Bswap32(Load32(b, off))
  }

  lemma BswapDigits(a: nat, b: nat, c: nat, d: nat)
    requires a < 256 && b < 256 && c < 256 && d < 256
    ensures Bswap32(a + 256 * b + 0x1_0000 * c + 0x100_0000 * d) == 0x100_0000 * a + 0x1_0000 * b + 256 * c + d
  {
    var z := c + 256 * d;
    var y := b + 256 * z;
    LowDigit(a, y);
    LowDigit(b, z);
    LowDigit(c, d);
    assert (a + 256 * y) / 0x1_0000 == y / 256 && (a + 256 * y) / 0x100_0000 == y / 256 / 256;
  }

  lemma LowDigit(a: nat, y: nat)
    requires a < 256
    ensures (a + 256 * y) % 256 == a && (a + 256 * y) / 256 == y
  {
  }

  lemma BigEndianDigits(x: nat)
    requires x < 0x1_0000_0000
    ensures 0x100_0000 * (x / 0x100_0000) + 0x1_0000 * (x / 0x1_0000 % 256) + 256 * (x / 256 % 256) + x % 256 == x
  {
    assert x / 0x1_0000 == x / 0x100_0000 * 256 + x / 0x1_0000 % 256;
    assert x / 256 == x / 0x1_0000 * 256 + x / 256 % 256;
  }

  /** Reading back a big-endian field. */
  lemma TokenIs(b: seq<byte>, off: nat, x: nat)
    requires off + 4 <= |b| && x < 0x1_0000_0000 && b[off..off + 4] == BigEndian(x)
    ensures Token(b, off) == x
  {
    var r := BigEndian(x);
    assert b[off] == b[off..off + 4][0] && b[off + 1] == b[off..off + 4][1];
    assert b[off + 2] == b[off..off + 4][2] && b[off + 3] == b[off..off + 4][3];
    BigEndianDigits(x);
    BswapDigits(r[0], r[1], r[2], r[3]);
  }

  /** `align_up(fdt + x, 4) - fdt` for a blob at a 4-aligned address. */
  function AlignUp(fdt: nat, x: nat): int {
    AndNot((fdt + x + 4 - 1) % TWO_TO_THE_64, 4 - 1) - fdt
  }

  lemma AlignUpIs(fdt: nat, x: nat)
    requires fdt % 4 == 0 && fdt + x + 3 < TWO_TO_THE_64
    ensures AlignUp(fdt, x) == x + Padding(x)
  {
    hide AndNot, Pow2, Padding;
    Powers();
    AndNotMask(fdt + x + 3, 2);
    RoundUpPadding(fdt, x);
  }
}

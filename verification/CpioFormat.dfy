/** The "New ASCII Format" of cpio(5): records, archives, and hexadecimal fields. */
module CpioFormat {
  import opened Bytes
  import opened Machine

  const HEADER: nat := 110

  // ----- hexadecimal fields -----

  predicate IsHex(c: byte) {
    48 <= c <= 57 || 65 <= c <= 70 || 97 <= c <= 102
  }

  predicate IsLower(c: byte) {
    97 <= c
  }

  /** The digit a character stands for. */
  function Digit(c: byte): nat
    requires IsHex(c)
  {
    if c <= 57 then c - 48 else if c <= 70 then c - 55 else c - 87
  }

  /** The digit that `hextoi` takes it for. */
  function CodeDigit(c: byte): nat
    requires IsHex(c)
  {
    if c >= 65 then c - 65 + 10 else c - 48
  }

  ghost predicate AllHex(s: seq<byte>) {
    forall i :: 0 <= i < |s| ==> IsHex(s[i])
  }

  function Value(s: seq<byte>): nat
    requires AllHex(s)
  {
    if s == [] then 0 else 16 * Value(s[..|s| - 1]) + Digit(s[|s| - 1])
  }

  function CodeValue(s: seq<byte>): nat
    requires AllHex(s)
  {
    if s == [] then 0 else 16 * CodeValue(s[..|s| - 1]) + CodeDigit(s[|s| - 1])
  }

  /** What the lower-case digits add to the code's reading, in units of 32. */
  function Excess(s: seq<byte>): nat {
    if s == [] then 0 else 16 * Excess(s[..|s| - 1]) + (if IsLower(s[|s| - 1]) then 1 else 0)
  }

  lemma {:induction false} CodeValueIs(s: seq<byte>)
    requires AllHex(s)
    ensures CodeValue(s) == Value(s) + 32 * Excess(s)
  {
    if s != [] { CodeValueIs(s[..|s| - 1]); }
  }

  /** A field by its first digit and the rest. */
  lemma {:induction false} FirstDigit(s: seq<byte>)
    requires AllHex(s) && s != []
    ensures Value(s) == Digit(s[0]) * Pow16(|s| - 1) + Value(s[1..])
    ensures Excess(s) == (if IsLower(s[0]) then Pow16(|s| - 1) else 0) + Excess(s[1..])
  {
    hide Digit, IsLower;
    var t := s[..|s| - 1];
    if t != [] {
      FirstDigit(t);
      assert s[1..][..|s| - 2] == t[1..] && s[1..][|s| - 2] == s[|s| - 1];
      TimesSixteen(Digit(s[0]), Pow16(|t| - 1));
    }
  }

  lemma TimesSixteen(d: nat, p: nat)
    ensures d * (16 * p) == 16 * (d * p)
  {
  }

  lemma {:induction false} FieldBounds(s: seq<byte>)
    requires AllHex(s)
    ensures Value(s) < Pow16(|s|) && 15 * Excess(s) < Pow16(|s|)
    ensures Excess(s) == 0 <==> forall i :: 0 <= i < |s| ==> !IsLower(s[i])
  {
    if s != [] {
      var t := s[..|s| - 1];
      FieldBounds(t);
      assert Pow16(|s|) == 16 * Pow16(|t|);
      assert (forall i :: 0 <= i < |s| ==> !IsLower(s[i])) <==>
             !IsLower(s[|s| - 1]) && forall i :: 0 <= i < |t| ==> !IsLower(t[i]) by {
        assert forall i :: 0 <= i < |t| ==> t[i] == s[i];
      }
    }
  }

  /** A field is read right as an `int` exactly if its first digit is below 8 and the others are
      no lower-case letters, and as an `unsigned int` exactly if the others are none. */
  lemma FieldRight(s: seq<byte>)
    requires |s| == 8 && AllHex(s)
    ensures ToInt(CodeValue(s)) == Value(s) <==> s[0] < 56 && forall i :: 0 < i < 8 ==> !IsLower(s[i])
    ensures ToUint(ToInt(CodeValue(s))) == Value(s) <==> forall i :: 0 < i < 8 ==> !IsLower(s[i])
  {
    hide Value, CodeValue, Excess, Pow16;
    CodeValueIs(s);
    FirstDigit(s);
    FieldBounds(s[1..]);
    assert forall i :: 0 < i < 8 ==> s[i] == s[1..][i - 1];
    Pow16Is();
    ReadingIs(Digit(s[0]), Value(s[1..]), if IsLower(s[0]) then 1 else 0, Excess(s[1..]));
  }

  lemma Pow16Is()
    ensures Pow16(7) == 0x1000_0000 && Pow16(8) == TWO_TO_THE_32
  {
    assert Pow16(4) == 0x1_0000;
  }

  /** The reading of a field with first digit `d`, rest `v`, and excess `x` and `y` of them. */
  lemma ReadingIs(d: nat, v: nat, x: nat, y: nat)
    requires d < 16 && v < 0x1000_0000 && x <= 1 && 15 * y < 0x1000_0000
    ensures var value := d * 0x1000_0000 + v; var r := ToInt(value + 32 * (x * 0x1000_0000 + y));
      && (r == value <==> d < 8 && y == 0) && (ToUint(r) == value <==> y == 0)
  {
    hide ToInt, ToUint;
    var value := d * 0x1000_0000 + v;
    assert value + 32 * (x * 0x1000_0000 + y) == (value + 32 * y) + (2 * x) * TWO_TO_THE_32;
    Turns(value + 32 * y, 2 * x);
    TooMuch(value, 32 * y);
  }

  lemma TooMuch(value: nat, e: nat)
    requires value < TWO_TO_THE_32 && e < 0x8000_0000
    ensures ToInt(value + e) == value <==> value < 0x8000_0000 && e == 0
    ensures ToUint(ToInt(value + e)) == value <==> e == 0
  {
    ToIntIs(value + e);
  }

  /** Reading a field digit by digit. */
  lemma EightDigits(s: seq<byte>)
    requires |s| == 8 && AllHex(s)
    ensures var d := (i: int) requires 0 <= i < 8 => CodeDigit(s[i]);
      CodeValue(s) == 0x1000_0000 * d(0) + 0x100_0000 * d(1) + 0x10_0000 * d(2) + 0x1_0000 * d(3)
                        + 0x1000 * d(4) + 0x100 * d(5) + 0x10 * d(6) + d(7)
  {
    forall k | 0 <= k < 8 ensures CodeValue(s[..k + 1]) == 16 * CodeValue(s[..k]) + CodeDigit(s[k]) {
      assert s[..k + 1][..k] == s[..k];
    }
    assert s[..8] == s;
  }

  /** The field `7fffffff`: its value fits an `int`, but the reading is negative. */
  lemma LowerCaseNegative()
    ensures var s := [55, 102, 102, 102, 102, 102, 102, 102]; AllHex(s) && ToInt(CodeValue(s)) == -1574821345
  {
    EightDigits([55, 102, 102, 102, 102, 102, 102, 102]);
  }

  /** The field `a0000000`: the lower-case digit does no harm to the `unsigned int` reading. */
  lemma LowerCaseFirst()
    ensures var s := [97, 48, 48, 48, 48, 48, 48, 48];
      AllHex(s) && ToUint(ToInt(CodeValue(s))) == Value(s) && ToInt(CodeValue(s)) != Value(s)
  {
    FieldRight([97, 48, 48, 48, 48, 48, 48, 48]);
  }

  /** The loop of `hextoi`, in 32-bit arithmetic. */
  method HexToI(s: seq<byte>) returns (r: int)
    requires AllHex(s)
    ensures r == ToInt(CodeValue(s))
  {
    hide ToInt;
    r := 0;
    var p := 0;
    DigitWraps(0, 0);
    while p < |s|
      invariant p <= |s| && r == ToInt(CodeValue(s[..p]))
    {
      assert s[..p + 1][..p] == s[..p];
      DigitWraps(CodeValue(s[..p]), CodeDigit(s[p]));
      r := ToInt(r * 16);
      if s[p] >= 65 {
        r := ToInt(r + (s[p] - 65 + 10));
      } else if s[p] >= 48 {
        r := ToInt(r + (s[p] - 48));
      }
      p := p + 1;
    }
    assert s[..p] == s;
  }

  /** Shifting in a digit, with wrap-around after each step. */
  lemma DigitWraps(x: int, d: int)
    ensures ToInt(0) == 0 && ToInt(ToInt(ToInt(x) * 16) + d) == ToInt(16 * x + d)
  {
    hide ToInt;
    var k := ToIntTurns(x);
    Turns(16 * x, 16 * k);
    ToIntSum(16 * x, d);
    ToIntIs(0);
  }

  /** `k` upper-case hexadecimal digits of `x`. */
  function Hex(x: nat, k: nat): (r: seq<byte>)
    ensures |r| == k
  {
    if k == 0 then [] else Hex(x / 16, k - 1) + [HexChar(x % 16)]
  }

  function HexChar(d: nat): byte
    requires d < 16
  {
    if d < 10 then 48 + d else 55 + d
  }

  function Pow16(k: nat): nat {
    if k == 0 then 1 else 16 * Pow16(k - 1)
  }

  /** Reading back what was written. */
  lemma {:induction false} HexRoundTrip(x: nat, k: nat)
    requires x < Pow16(k)
    ensures AllHex(Hex(x, k)) && CodeValue(Hex(x, k)) == x == Value(Hex(x, k))
  {
    if k > 0 {
      HexRoundTrip(x / 16, k - 1);
      assert Hex(x, k)[..k - 1] == Hex(x / 16, k - 1);
    }
  }

  // ----- records -----

  /** A member: the header fields that the walk does not read, the name and the data. Name size
      (with its NUL) and data size fit the eight digits of their fields. */
  datatype Member = Member(before: seq<byte>, between: seq<byte>, after: seq<byte>, name: seq<byte>, data: seq<byte>)

  predicate WellFormed(m: Member) {
    && |m.before| == 54 && |m.between| == 32 && |m.after| == 8
    && 0 !in m.name && |m.name| + 1 < TWO_TO_THE_32 && |m.data| < TWO_TO_THE_32
  }

  function HeadSize(m: Member): nat {
    var n := HEADER + |m.name| + 1; n + Padding(n)
  }

  function DataSize(m: Member): nat {
    |m.data| + Padding(|m.data|)
  }

  /** The record of `m`, followed by `rest`. */
  function Record(m: Member, rest: seq<byte>): seq<byte> {
    m.before + (Hex(|m.data|, 8) + (m.between + (Hex(|m.name| + 1, 8) + (m.after + NameAndData(m, rest)))))
  }

  function NameAndData(m: Member, rest: seq<byte>): seq<byte> {
    (m.name + [0]) + (Zeros(Padding(HEADER + |m.name| + 1)) + (m.data + (Zeros(Padding(|m.data|)) + rest)))
  }

  /** `TRAILER!!!` */
  const TRAILER: seq<byte> := [84, 82, 65, 73, 76, 69, 82, 33, 33, 33]

  predicate IsTrailer(m: Member) {
    WellFormed(m) && m.name == TRAILER && m.data == []
  }

  ghost predicate AllWellFormed(ms: seq<Member>) {
    forall i :: 0 <= i < |ms| ==> WellFormed(ms[i])
  }

  /** The archive with members `ms` and trailer `end`. */
  function Archive(ms: seq<Member>, end: Member): seq<byte> {
    if ms == [] then Record(end, []) else Record(ms[0], Archive(ms[1..], end))
  }

  /** The member that a walk meets first. */
  function First(ms: seq<Member>, end: Member): Member {
    if ms == [] then end else ms[0]
  }

  /** What the bytes at the start of a record say. */
  ghost predicate RecordAt(b: seq<byte>, off: nat, m: Member) {
    && WellFormed(m) && off + HeadSize(m) + DataSize(m) <= |b|
    && b[off + 54..off + 62] == Hex(|m.data|, 8) && b[off + 94..off + 102] == Hex(|m.name| + 1, 8)
    && m.name + [0] <= b[off + HEADER..]
    && b[off + HeadSize(m)..off + HeadSize(m) + |m.data|] == m.data
  }

  lemma RecordFields(b: seq<byte>, off: nat, m: Member, rest: seq<byte>)
    requires WellFormed(m) && off <= |b| && Record(m, rest) <= b[off..]
    ensures RecordAt(b, off, m)
    ensures rest <= b[off + HeadSize(m) + DataSize(m)..]
  {
    hide Hex, NameAndData;
    HeaderFields(b, off, m, NameAndData(m, rest));
    BodyFields(b, off + HEADER, m, rest);
  }

  lemma HeaderFields(b: seq<byte>, off: nat, m: Member, more: seq<byte>)
    requires WellFormed(m) && off <= |b|
    requires m.before + (Hex(|m.data|, 8) + (m.between + (Hex(|m.name| + 1, 8) + (m.after + more)))) <= b[off..]
    ensures off + HEADER <= |b| && more <= b[off + HEADER..]
    ensures b[off + 54..off + 62] == Hex(|m.data|, 8) && b[off + 94..off + 102] == Hex(|m.name| + 1, 8)
  {
  }

  lemma BodyFields(b: seq<byte>, p: nat, m: Member, rest: seq<byte>)
    requires WellFormed(m) && HEADER <= p <= |b| && NameAndData(m, rest) <= b[p..]
    ensures var d := p - HEADER + HeadSize(m);
      && d + DataSize(m) <= |b| && m.name + [0] <= b[p..]
      && b[d..d + |m.data|] == m.data && rest <= b[d + DataSize(m)..]
  {
  }
}

/** An archive written out field by field: one member `a.t` of two bytes, and the trailer. */
module CpioSample {
  import opened Bytes
  import opened CpioFormat
  import opened CpioWalk
  import opened Machine
  import opened Wrappers

  /** `070701`, and the fields `00000000`, `00000002`, `00000004` and `0000000B`. */
  const MAGIC: seq<byte> := [48, 55, 48, 55, 48, 49]
  const FIELD_0: seq<byte> := [48, 48, 48, 48, 48, 48, 48, 48]
  const FIELD_2: seq<byte> := [48, 48, 48, 48, 48, 48, 48, 50]
  const FIELD_4: seq<byte> := [48, 48, 48, 48, 48, 48, 48, 52]
  const FIELD_11: seq<byte> := [48, 48, 48, 48, 48, 48, 48, 66]

  /** The fields of the header in order: magic, inode, mode, user, group, links, time. */
  const BEFORE: seq<byte> := MAGIC + FIELD_0 + FIELD_0 + FIELD_0 + FIELD_0 + FIELD_0 + FIELD_0

  /** Behind the file size: the four device numbers; behind the name size: the checksum. */
  const BETWEEN: seq<byte> := FIELD_0 + FIELD_0 + FIELD_0 + FIELD_0
  const AFTER: seq<byte> := FIELD_0

  /** `a.t` with NUL and two bytes of padding, `hi` and two bytes of padding. */
  const NAME: seq<byte> := [97, 46, 116]
  const MEMBER_BYTES: seq<byte> := [97, 46, 116, 0] + ([0, 0] + ([104, 105] + [0, 0]))

  /** `TRAILER!!!` with NUL and three bytes of padding. */
  const TRAILER_BYTES: seq<byte> := [84, 82, 65, 73, 76, 69, 82, 33, 33, 33, 0] + [0, 0, 0]

  const ARCHIVE: seq<byte> :=
    (BEFORE + FIELD_2 + BETWEEN + FIELD_4 + AFTER + MEMBER_BYTES)
    + (BEFORE + FIELD_0 + BETWEEN + FIELD_11 + AFTER + TRAILER_BYTES)

  const MEMBER: Member := Member(BEFORE, BETWEEN, AFTER, NAME, [104, 105])
  const END: Member := Member(BEFORE, BETWEEN, AFTER, TRAILER, [])

  lemma Sizes()
    ensures |BEFORE| == 54 && |BETWEEN| == 32 && |AFTER| == 8
    ensures |MEMBER_BYTES| == 10 && |TRAILER_BYTES| == 14 && |ARCHIVE| == 244
  {
  }

  /** Upper-case hexadecimal fields. */
  lemma Fields()
    ensures Hex(0, 8) == FIELD_0 && Hex(2, 8) == FIELD_2 && Hex(4, 8) == FIELD_4 && Hex(11, 8) == FIELD_11
  {
    hide Hex;
    FieldOf(0, FIELD_0);
    FieldOf(2, FIELD_2);
    FieldOf(4, FIELD_4);
    FieldOf(11, FIELD_11);
  }

  lemma FieldOf(x: nat, s: seq<byte>)
    requires x < 16 && |s| == 8 && s[7] == HexChar(x) && forall i :: 0 <= i < 7 ==> s[i] == 48
    ensures Hex(x, 8) == s
  {
    hide Hex, HexChar;
    ZeroField(7);
    LastDigit(x, 8);
  }

  lemma LastDigit(x: nat, k: nat)
    requires x < 16 && k > 0
    ensures Hex(x, k) == Hex(0, k - 1) + [HexChar(x)]
  {
  }

  lemma {:induction false} ZeroField(k: nat)
    ensures forall i :: 0 <= i < k ==> Hex(0, k)[i] == 48
  {
    if k > 0 { ZeroField(k - 1); }
  }

  lemma Flatten(a: seq<byte>, b: seq<byte>, c: seq<byte>, d: seq<byte>, e: seq<byte>, f: seq<byte>, r: seq<byte>)
    ensures a + (b + (c + (d + (e + (f + r))))) == (a + b + c + d + e + f) + r
  {
    Assoc(a, b, c + (d + (e + (f + r))));
    Assoc(a + b, c, d + (e + (f + r)));
    Assoc(a + b + c, d, e + (f + r));
    Assoc(a + b + c + d, e, f + r);
    Assoc(a + b + c + d + e, f, r);
  }

  lemma MemberBody(rest: seq<byte>)
    ensures NameAndData(MEMBER, rest) == MEMBER_BYTES + rest
  {
    assert NAME + [0] == [97, 46, 116, 0];
    assert Zeros(Padding(HEADER + 4)) == [0, 0] && Zeros(Padding(2)) == [0, 0];
    Assoc([104, 105], [0, 0], rest);
    Assoc([0, 0], [104, 105] + [0, 0], rest);
    Assoc([97, 46, 116, 0], [0, 0] + ([104, 105] + [0, 0]), rest);
  }

  lemma TrailerBody()
    ensures NameAndData(END, []) == TRAILER_BYTES + []
  {
    assert Zeros(Padding(HEADER + 11)) == [0, 0, 0] && Zeros(Padding(0)) == [];
    assert TRAILER + [0] == [84, 82, 65, 73, 76, 69, 82, 33, 33, 33, 0];
    var none: seq<byte> := [];
    assert none + (Zeros(Padding(0)) + none) == none;
  }

  /** The archive of the member is these bytes. */
  lemma ArchiveSample()
    ensures WellFormed(MEMBER) && IsTrailer(END) && Archive([MEMBER], END) == ARCHIVE
  {
    hide Hex, NameAndData;
    Sizes();
    Fields();
    TrailerBody();
    Flatten(BEFORE, FIELD_0, BETWEEN, FIELD_11, AFTER, TRAILER_BYTES, []);
    var rest := Record(END, []);
    MemberBody(rest);
    Flatten(BEFORE, FIELD_2, BETWEEN, FIELD_4, AFTER, MEMBER_BYTES, rest);
    assert [MEMBER][1..] == [];
  }

  lemma Standings()
    ensures Standing(ARCHIVE, 0, [MEMBER], END)
  {
    ArchiveSample();
    assert ARCHIVE[0..] == ARCHIVE;
  }

  /** What the walks are to find. */
  lemma Expected()
    ensures Visible([MEMBER], false) == [MEMBER] && Entries([MEMBER], 0) == [Entry(NAME, 2, 116)]
    ensures ExecWalk([MEMBER], NAME, 0) == Finds(2, 116)
    ensures Find([Entry(NAME, 2, 116)], NAME) == Some(Entry(NAME, 2, 116))
  {
    assert NAME != TRAILER && !(TRAILER <= NAME);
    assert Visible([MEMBER][1..], false) == [] && Entries([MEMBER][1..], 120) == [];
  }

  /** On these bytes, at any 4-aligned address, the walks list `a.t` with two bytes at offset
      116 and find them there. */
  method Sample(rd: nat) returns (list: seq<Entry>, cat: Option<nat>, found: Walk)
    requires rd % 4 == 0 && rd + 247 < TWO_TO_THE_64
    ensures list == [Entry([97, 46, 116], 2, 116)] && cat == Some(rd + 116) && found == Finds(2, 116)
  {
    hide Standing, Visible, Entries, Find, ExecWalk;
    Sizes();
    Standings();
    Expected();
    list := InitrdList(ARCHIVE, rd, [MEMBER], END);
    cat := InitrdCat(ARCHIVE, rd, NAME, [MEMBER], END);
    found := ExecFind(ARCHIVE, NAME, [MEMBER], END);
  }
}

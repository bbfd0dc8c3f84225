/** A devicetree blob written out byte by byte: what the encoding is, and what the scanner finds
    in it. */
module FdtSample {
  import opened Bytes
  import opened FdtFormat
  import opened FdtLookup
  import opened FdtPaths
  import opened FdtScanner
  import opened Machine
  import opened Wrappers

  /** The header: magic, total size 119, structure block at 40, strings block at 112, memory
      reservations, versions 17 and 16, boot CPU, sizes 7 and 72 of the two blocks. */
  const HEADER_BYTES: seq<byte> :=
    [0xd0, 0x0d, 0xfe, 0xed] + [0, 0, 0, 119] + [0, 0, 0, 40] + [0, 0, 0, 112] + [0, 0, 0, 0]
    + [0, 0, 0, 17] + [0, 0, 0, 16] + [0, 0, 0, 0] + [0, 0, 0, 7] + [0, 0, 0, 72]

  /** The root, with a property `reg` of 8 bytes, a NOP, and ... */
  const ROOT_BYTES: seq<byte> :=
    [0, 0, 0, 1, 0, 0, 0, 0] + [0, 0, 0, 3, 0, 0, 0, 8, 0, 0, 0, 0, 1, 2, 3, 4, 5, 6, 7, 8] + [0, 0, 0, 4]

  /** ... a child `cpus` with a property `st` that holds the byte 65. */
  const CHILD_BYTES: seq<byte> :=
    [0, 0, 0, 1, 99, 112, 117, 115, 0, 0, 0, 0] + [0, 0, 0, 3, 0, 0, 0, 1, 0, 0, 0, 4, 65, 0, 0, 0] + [0, 0, 0, 2]

  const END_BYTES: seq<byte> := [0, 0, 0, 2] + [0, 0, 0, 9]

  /** `reg` and `st`. */
  const STRING_BYTES: seq<byte> := [114, 101, 103, 0] + [115, 116, 0]

  const STRUCT_BYTES: seq<byte> := ROOT_BYTES + CHILD_BYTES + END_BYTES

  const BLOB: seq<byte> := HEADER_BYTES + (STRUCT_BYTES + STRING_BYTES)

  /** The same tree. */
  const CPUS: Items := Node([99, 112, 117, 115], Prop(4, [65], Nil), Nil)
  const BODY: Items := Prop(0, [1, 2, 3, 4, 5, 6, 7, 8], Nop(CPUS))
  const TREE: Items := Node([], BODY, Nil)

  /** `/cpus` and `st`. */
  const PATH: seq<byte> := [47, 99, 112, 117, 115]
  const PROP_NAME: seq<byte> := [115, 116]

  /** The encoding of the tree is these bytes. */
  lemma FlatSample()
    ensures WellFormed(TREE) && Flat(TREE) + BigEndian(FDT_END) == STRUCT_BYTES
  {
    hide NodeHead, BigEndian, Padded;
    FlatBody();
    Heads();
    Tokens();
    assert Flat(TREE) == NodeHead([]) + (Flat(BODY) + (BigEndian(FDT_END_NODE) + []));
    Assoc(NodeHead([]), Flat(BODY), BigEndian(FDT_END_NODE));
    Assoc(NodeHead([]) + Flat(BODY), BigEndian(FDT_END_NODE), BigEndian(FDT_END));
  }

  lemma Tokens()
    ensures BigEndian(FDT_END_NODE) == [0, 0, 0, 2] && BigEndian(FDT_END) == [0, 0, 0, 9]
    ensures BigEndian(FDT_NOP) == [0, 0, 0, 4]
  {
  }

  lemma Heads()
    ensures NodeHead([]) == [0, 0, 0, 1, 0, 0, 0, 0]
    ensures NodeHead([99, 112, 117, 115]) == [0, 0, 0, 1, 99, 112, 117, 115, 0, 0, 0, 0]
  {
    assert Padded([0]) == [0, 0, 0, 0];
    assert [99, 112, 117, 115] + [0] == [99, 112, 117, 115, 0];
    assert Padded([99, 112, 117, 115, 0]) == [99, 112, 117, 115, 0, 0, 0, 0];
  }

  lemma Props()
    ensures PropToken(4, [65]) == [0, 0, 0, 3, 0, 0, 0, 1, 0, 0, 0, 4, 65, 0, 0, 0]
    ensures PropToken(0, [1, 2, 3, 4, 5, 6, 7, 8]) ==
      [0, 0, 0, 3, 0, 0, 0, 8, 0, 0, 0, 0, 1, 2, 3, 4, 5, 6, 7, 8]
  {
    RegProp();
    StProp();
  }

  lemma RegProp()
    ensures PropToken(0, [1, 2, 3, 4, 5, 6, 7, 8]) ==
      [0, 0, 0, 3, 0, 0, 0, 8, 0, 0, 0, 0, 1, 2, 3, 4, 5, 6, 7, 8]
  {
    assert Padded([1, 2, 3, 4, 5, 6, 7, 8]) == [1, 2, 3, 4, 5, 6, 7, 8];
  }

  lemma StProp()
    ensures PropToken(4, [65]) == [0, 0, 0, 3, 0, 0, 0, 1, 0, 0, 0, 4, 65, 0, 0, 0]
  {
    assert Padded([65]) == [65, 0, 0, 0];
  }

  lemma FlatCpus()
    ensures WellFormed(CPUS) && Flat(CPUS) == CHILD_BYTES
  {
    hide NodeHead, PropToken, BigEndian;
    Heads();
    Props();
    Tokens();
    var inner := Prop(4, [65], Nil);
    assert Flat(inner) == PropToken(4, [65]) + [];
    assert Flat(CPUS) == NodeHead([99, 112, 117, 115]) + (Flat(inner) + (BigEndian(FDT_END_NODE) + []));
    Assoc(NodeHead([99, 112, 117, 115]), PropToken(4, [65]), BigEndian(FDT_END_NODE));
  }

  lemma FlatBody()
    ensures WellFormed(BODY)
    ensures [0, 0, 0, 1, 0, 0, 0, 0] + Flat(BODY) == ROOT_BYTES + CHILD_BYTES
  {
    hide PropToken, BigEndian, NodeHead;
    FlatCpus();
    Props();
    Tokens();
    var prop := PropToken(0, [1, 2, 3, 4, 5, 6, 7, 8]);
    assert Flat(Nop(CPUS)) == [0, 0, 0, 4] + Flat(CPUS);
    assert Flat(BODY) == prop + Flat(Nop(CPUS));
    Assoc([0, 0, 0, 1, 0, 0, 0, 0], prop, Flat(Nop(CPUS)));
    Assoc([0, 0, 0, 1, 0, 0, 0, 0] + prop, [0, 0, 0, 4], Flat(CPUS));
  }

  // ----- the reads -----

  lemma BlobParts()
    ensures |HEADER_BYTES| == 40 && |STRUCT_BYTES| == 72 && |STRING_BYTES| == 7 && |BLOB| == 119
    ensures BLOB[40..] == STRUCT_BYTES + STRING_BYTES && BLOB[112..] == STRING_BYTES
    ensures Token(BLOB, 8) == 40 && Token(BLOB, 12) == 112
  {
    hide Token;
    BlobSizes();
    HeaderWords();
    ThreeParts(HEADER_BYTES, STRUCT_BYTES, STRING_BYTES);
    WordOf(8, 40);
    WordOf(12, 112);
  }

  lemma BlobSizes()
    ensures |HEADER_BYTES| == 40 && |STRUCT_BYTES| == 72 && |STRING_BYTES| == 7
  {
  }

  lemma HeaderWords()
    ensures |HEADER_BYTES| == 40
    ensures HEADER_BYTES[8..12] == [0, 0, 0, 40] && HEADER_BYTES[12..16] == [0, 0, 0, 112]
  {
  }

  lemma ThreeParts(a: seq<byte>, b: seq<byte>, c: seq<byte>)
    ensures (a + (b + c))[|a|..] == b + c && (a + (b + c))[|a| + |b|..] == c
    ensures forall i, j :: 0 <= i <= j <= |a| ==> (a + (b + c))[i..j] == a[i..j]
  {
  }

  lemma WordOf(off: nat, x: nat)
    requires |HEADER_BYTES| == 40 && off + 4 <= 40 && x < 256 && HEADER_BYTES[off..off + 4] == [0, 0, 0, x]
    ensures off + 4 <= |BLOB| && Token(BLOB, off) == x
  {
    hide Token;
    ThreeParts(HEADER_BYTES, STRUCT_BYTES, STRING_BYTES);
    assert BLOB[off..off + 4] == HEADER_BYTES[off..off + 4];
    TokenIs(BLOB, off, x);
  }

  lemma SampleBlob()
    ensures Blob(BLOB, TREE)
  {
    hide Flat, Token, BigEndian;
    BlobParts();
    FlatSample();
    assert Closing([]) == BigEndian(FDT_END);
    assert Remaining(TREE, []) == STRUCT_BYTES;
  }

  /** `/cpus` has one component. */
  lemma SamplePath()
    ensures Components(PATH) == [[99, 112, 117, 115]]
  {
    assert PATH[1..] == [99, 112, 117, 115];
    NoSlash([99, 112, 117, 115], []);
    assert [99, 112, 117, 115] + [] == [99, 112, 117, 115];
  }

  lemma SampleSizes()
    ensures WellFormed(TREE) && |NodeHead([])| == 8 && |NodeHead([99, 112, 117, 115])| == 12
    ensures ItemSize(BODY) == 20
  {
  }

  /** The child stands 32 bytes into the structure block. */
  lemma SampleNode()
    ensures WellFormed(TREE) && Resolve(TREE, 40, [[99, 112, 117, 115]]) == Some(72)
  {
    SampleSizes();
    hide NodeHead, BigEndian;
    var comps := [[99, 112, 117, 115]];
    assert Accepts([99, 112, 117, 115], comps[0]);
    assert Descend(CPUS, 72, comps) == Some(72);
    assert Descend(Nop(CPUS), 68, comps) == Descend(CPUS, 72, comps);
    assert Descend(BODY, 48, comps) == Descend(Nop(CPUS), 68, comps);
  }

  lemma SampleFacing() returns (stack: seq<Items>)
    ensures Facing(BLOB, 72, CPUS, stack)
  {
    hide NodeHead, Flat, Token, Facing, BigEndian;
    SampleSizes();
    SampleBlob();
    BlobParts();
    BlobFacing(BLOB, TREE);
    FacingEnter(BLOB, 40, TREE, []);
    FacingSkip(BLOB, 48, BODY, [Nil] + []);
    FacingSkip(BLOB, 68, Nop(CPUS), [Nil] + []);
    stack := [Nil] + [];
  }

  /** The property's name and value. */
  lemma SampleProp()
    ensures WellFormed(CPUS) && Named(BLOB, 112, CPUS.body)
    ensures LeadingProp(BLOB, 112, CPUS.body, 84, PROP_NAME) == Some((96, [65]))
  {
    BlobParts();
    assert BLOB[116] == BLOB[112..][4] && BLOB[117] == BLOB[112..][5] && BLOB[118] == BLOB[112..][6];
    assert CString(BLOB, 118) == [] && CString(BLOB, 117) == [116] && CString(BLOB, 116) == PROP_NAME;
  }

  /** On these bytes, anywhere in memory, `fdt_path_offset` finds `/cpus` at offset 72 and
      `fdt_getprop` finds there the one byte of `st`, at offset 96. */
  method Sample(fdt: nat) returns (offset: int, prop: Option<(nat, nat)>)
    requires InMemory(BLOB, fdt)
    ensures offset == 72 && prop == Some((96, 1))
  {
    hide NodeHead, Flat, Token, Facing, Components, Resolve, Named, LeadingProp, Blob, InMemory;
    BlobParts();
    SampleBlob();
    SamplePath();
    SampleNode();
    SampleProp();
    SampleSizes();
    offset := FdtPathOffset(BLOB, fdt, PATH, TREE);
    ghost var stack := SampleFacing();
    prop := FdtGetProp(BLOB, fdt, offset, PROP_NAME, CPUS, stack);
  }

  /** The unit address of `cpu@0` may be left out in a path, but not changed, and the name not
      cut short. */
  lemma UnitAddress()
    ensures Accepts([99, 112, 117, 64, 48], [99, 112, 117])
    ensures !Accepts([99, 112, 117, 64, 48], [99, 112, 117, 64, 49])
    ensures !Accepts([99, 112, 117, 64, 48], [99, 112])
  {
    var name: seq<byte> := [99, 112, 117, 64, 48];
    assert UnitAddressCut(name, [99, 112, 117], 3);
    assert name[4] != [99, 112, 117, 64, 49][4];
  }
}

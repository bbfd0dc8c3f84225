/** The archive walks of `initrd_list` and `initrd_cat` (absolute addresses) and of `exec`
    (relative offsets) over the same archive. */
module CpioWalk {
  import opened Bits
  import opened Bytes
  import opened CpioFormat
  import opened Machine
  import opened Wrappers

  /** What a walk sees of a member: name, size, and where its data starts. */
  datatype Entry = Entry(name: seq<byte>, size: nat, start: nat)

  /** The entries of members laid out from `off` on. */
  ghost function Entries(ms: seq<Member>, off: nat): seq<Entry> {
    if ms == [] then []
    else [Entry(ms[0].name, |ms[0].data|, off + HeadSize(ms[0]))]
           + Entries(ms[1..], off + HeadSize(ms[0]) + DataSize(ms[0]))
  }

  /** The members before the first one that is taken for the trailer: by `strcmp`, a member of
      that name; by `exec`'s ten-byte comparison, any member whose name starts with it. */
  ghost function Visible(ms: seq<Member>, byPrefix: bool): seq<Member> {
    if ms == [] || EndsWalk(ms[0].name, byPrefix) then [] else [ms[0]] + Visible(ms[1..], byPrefix)
  }

  predicate EndsWalk(name: seq<byte>, byPrefix: bool) {
    if byPrefix then TRAILER <= name else name == TRAILER
  }

  /** The whole archive is seen exactly if no member is taken for the trailer. */
  lemma {:induction false} AllVisible(ms: seq<Member>, byPrefix: bool)
    ensures Visible(ms, byPrefix) == ms <==> forall i :: 0 <= i < |ms| ==> !EndsWalk(ms[i].name, byPrefix)
  {
    if ms != [] {
      AllVisible(ms[1..], byPrefix);
      assert ms == [ms[0]] + ms[1..];
      assert forall i :: 0 < i < |ms| ==> ms[i] == ms[1..][i - 1];
    }
  }

  /** A member `TRAILER!!!x` ends the walk of `exec`, but not those of `ex22`; a member with the
      trailer's own name ends both. */
  lemma LookAlikes(m: Member)
    ensures m.name == TRAILER + [120] ==> Visible([m], true) == [] && Visible([m], false) == [m]
    ensures m.name == TRAILER ==> Visible([m], true) == [] && Visible([m], false) == []
  {
    assert TRAILER <= TRAILER + [120];
    assert |TRAILER + [120]| != |TRAILER|;
    assert Visible([m][1..], false) == [];
  }

  /** The first entry with a name. */
  ghost function Find(es: seq<Entry>, name: seq<byte>): Option<Entry> {
    if es == [] then None else if es[0].name == name then Some(es[0]) else Find(es[1..], name)
  }

  // ----- the bytes under the walk -----

  ghost predicate Standing(b: seq<byte>, off: nat, ms: seq<Member>, end: Member) {
    && AllWellFormed(ms) && IsTrailer(end)
    && off <= |b| && off % 4 == 0 && Archive(ms, end) <= b[off..]
  }

  lemma StandingFields(b: seq<byte>, off: nat, ms: seq<Member>, end: Member)
    requires Standing(b, off, ms, end)
    ensures var m := First(ms, end);
      && RecordAt(b, off, m) && off + HEADER <= |b| && HeadSize(m) % 4 == 0 && DataSize(m) % 4 == 0
      && AllHex(b[off + 54..off + 62]) && AllHex(b[off + 94..off + 102])
      && CodeValue(b[off + 54..off + 62]) == |m.data| && CodeValue(b[off + 94..off + 102]) == |m.name| + 1
      && CString(b, off + HEADER) == m.name && Terminated(b, off + HEADER)
      && WellFormed(m) && m.name + [0] <= b[off + HEADER..] && (ms == [] ==> m.name == TRAILER)
      && off % 4 == 0 && off + HeadSize(m) + DataSize(m) <= |b|
      && |m.name| + 1 < TWO_TO_THE_32 && |m.data| < TWO_TO_THE_32
  {
    hide Hex, Record, CString, CodeValue, Pow16, HeadSize, DataSize;
    var m := First(ms, end);
    PaddedSizes(m);
    RecordFields(b, off, m, if ms == [] then [] else Archive(ms[1..], end));
    SizeField(|m.data|);
    SizeField(|m.name| + 1);
    HeaderInside(b, off, m);
    CStringIs(b, off + HEADER, m.name);
  }

  /** Behind a record stands the rest of the archive. */
  lemma StandingNext(b: seq<byte>, off: nat, ms: seq<Member>, end: Member)
    requires Standing(b, off, ms, end) && ms != []
    ensures Standing(b, off + HeadSize(ms[0]) + DataSize(ms[0]), ms[1..], end)
  {
    hide Hex, Record, HeadSize, DataSize, WellFormed;
    PaddedSizes(ms[0]);
    MembersFormed(ms);
    RecordFields(b, off, ms[0], Archive(ms[1..], end));
  }

  lemma MembersFormed(ms: seq<Member>)
    requires AllWellFormed(ms) && ms != []
    ensures WellFormed(ms[0]) && AllWellFormed(ms[1..])
  {
  }

  lemma SizeField(x: nat)
    requires x < TWO_TO_THE_32
    ensures AllHex(Hex(x, 8)) && CodeValue(Hex(x, 8)) == x
  {
    Pow16Is();
    HexRoundTrip(x, 8);
  }

  lemma HeaderInside(b: seq<byte>, off: nat, m: Member)
    requires RecordAt(b, off, m)
    ensures off + HEADER <= |b|
  {
  }

  lemma PaddedSizes(m: Member)
    ensures HeadSize(m) % 4 == 0 && DataSize(m) % 4 == 0 && |m.data| <= DataSize(m)
  {
  }

  lemma {:induction false} CStringIs(b: seq<byte>, p: nat, s: seq<byte>)
    requires 0 !in s && p <= |b| && s + [0] <= b[p..]
    ensures CString(b, p) == s && Terminated(b, p)
    decreases |s|
  {
    StringAt(b, p, s);
    assert b[p] == At(s, 0);
    if s != [] {
      assert s == [s[0]] + s[1..];
      Assoc([s[0]], s[1..], [0]);
      PrefixSplit(b, p, [s[0]], s[1..] + [0]);
      CStringIs(b, p + 1, s[1..]);
    }
  }

  /** `align(align(cur + 110 + namesize, 4) + filesize, 4)`. */
  function NextHeader(cur: nat, nameSize: nat, fileSize: nat): nat {
    Align(Align(cur + HEADER + nameSize) + fileSize)
  }

  /** `(n + 4 - 1) & ~(4 - 1)` on an `unsigned long`. */
  function Align(n: nat): nat {
    AndNot((n + 4 - 1) % TWO_TO_THE_64, 4 - 1)
  }

  lemma AlignIs(base: nat, n: nat)
    requires base % 4 == 0 && base + n + 3 < TWO_TO_THE_64
    ensures Align(base + n) == base + n + Padding(n)
  {
    hide AndNot, Pow2, Padding;
    Powers();
    AndNotMask(base + n + 3, 2);
    RoundUpPadding(base, n);
  }

  /** The step of `ex22`, in 64-bit addresses, leads to the next header. */
  lemma StepIs(rd: nat, off: nat, m: Member)
    requires rd % 4 == 0 && off % 4 == 0 && rd + off + HeadSize(m) + DataSize(m) + 3 < TWO_TO_THE_64
    ensures Align(rd + off + HEADER + (|m.name| + 1)) == rd + off + HeadSize(m)
    ensures NextHeader(rd + off, |m.name| + 1, |m.data|) == rd + off + HeadSize(m) + DataSize(m)
  {
    hide Align, Padding;
    PaddedSizes(m);
    AlignIs(rd + off, HEADER + (|m.name| + 1));
    AlignIs(rd + off + HeadSize(m), |m.data|);
  }

  // ----- ex22 -----

  /** `unsigned int x = hextoi(s, 8)`. */
  method ReadUint(s: seq<byte>) returns (x: nat)
    requires AllHex(s)
    ensures CodeValue(s) < TWO_TO_THE_32 ==> x == CodeValue(s)
  {
    var r := HexToI(s);
    ToIntIs(CodeValue(s));
    x := ToUint(r);
  }

  /** `initrd_list` on an archive at the 4-aligned address `rd`: the members in order. */
  method InitrdList(b: seq<byte>, rd: nat, ghost ms: seq<Member>, ghost end: Member) returns (out: seq<Entry>)
    requires rd % 4 == 0 && rd + |b| + 3 < TWO_TO_THE_64 && Standing(b, 0, ms, end)
    ensures out == Entries(Visible(ms, false), 0)
  {
    hide CString, Terminated, RecordAt, CodeValue, Align, HeadSize, DataSize, Standing, Entries, Visible, WellFormed;
    var cur := rd;
    out := [];
    ghost var rest := ms;
    while true
      invariant rd <= cur && Standing(b, cur - rd, rest, end)
      invariant out + Entries(Visible(rest, false), cur - rd) == Entries(Visible(ms, false), 0)
      decreases |rest|
    {
      ghost var m := First(rest, end);
      StandingFields(b, cur - rd, rest, end);
      StepIs(rd, cur - rd, m);
      var off := cur - rd;
      var nameSize := ReadUint(b[off + 94..off + 102]);
      var fileSize := ReadUint(b[off + 54..off + 62]);
      var last := StrEq(b, off + HEADER, TRAILER);
      EntriesStep(rest, off, false);
      if last {
        return;
      }
      StandingNext(b, off, rest, end);
      var name := CopyString(b, off + HEADER);
      out := out + [Entry(name, fileSize, Align(cur + HEADER + nameSize) - rd)];
      cur := NextHeader(cur, nameSize, fileSize);
      rest := rest[1..];
    }
  }

  lemma EntriesStep(ms: seq<Member>, off: nat, byPrefix: bool)
    ensures Entries(Visible(ms, byPrefix), off) ==
      if ms == [] || EndsWalk(ms[0].name, byPrefix) then []
      else [Entry(ms[0].name, |ms[0].data|, off + HeadSize(ms[0]))]
             + Entries(Visible(ms[1..], byPrefix), off + HeadSize(ms[0]) + DataSize(ms[0]))
  {
  }

  /** The string that `printf("%s")` prints. */
  method CopyString(b: seq<byte>, p: nat) returns (s: seq<byte>)
    requires Terminated(b, p)
    ensures s == CString(b, p)
  {
    s := [];
    var i := p;
    while b[i] != 0
      invariant p <= i < |b| && Terminated(b, i) && s + CString(b, i) == CString(b, p)
      decreases |b| - i
    {
      s := s + [b[i]];
      i := i + 1;
    }
  }

  /** `initrd_cat`: where the data of the first member with the name starts. */
  method InitrdCat(b: seq<byte>, rd: nat, filename: seq<byte>, ghost ms: seq<Member>, ghost end: Member)
    returns (r: Option<nat>)
    requires rd % 4 == 0 && rd + |b| + 3 < TWO_TO_THE_64 && Standing(b, 0, ms, end) && 0 !in filename
    ensures var goal := Find(Entries(Visible(ms, false), 0), filename);
      r == if goal.Some? then Some(rd + goal.value.start) else None
  {
    hide CString, Terminated, RecordAt, CodeValue, Align, HeadSize, DataSize, Standing, WellFormed;
    hide Entries, Visible, Find;
    var cur := rd;
    ghost var rest := ms;
    while true
      invariant rd <= cur && Standing(b, cur - rd, rest, end)
      invariant Find(Entries(Visible(rest, false), cur - rd), filename)
             == Find(Entries(Visible(ms, false), 0), filename)
      decreases |rest|
    {
      StandingFields(b, cur - rd, rest, end);
      StepIs(rd, cur - rd, First(rest, end));
      var off := cur - rd;
      var nameSize := ReadUint(b[off + 94..off + 102]);
      var fileSize := ReadUint(b[off + 54..off + 62]);
      var last := StrEq(b, off + HEADER, TRAILER);
      FindStep(rest, off, false, filename);
      if last {
        return None;
      }
      var same := StrEq(b, off + HEADER, filename);
      if same {
        return Some(Align(cur + HEADER + nameSize));
      }
      StandingNext(b, off, rest, end);
      cur := NextHeader(cur, nameSize, fileSize);
      rest := rest[1..];
    }
  }

  lemma FindStep(ms: seq<Member>, off: nat, byPrefix: bool, name: seq<byte>)
    ensures Find(Entries(Visible(ms, byPrefix), off), name) ==
        if ms == [] || EndsWalk(ms[0].name, byPrefix) then None
        else if ms[0].name == name then Some(Entry(ms[0].name, |ms[0].data|, off + HeadSize(ms[0])))
        else Find(Entries(Visible(ms[1..], byPrefix), off + HeadSize(ms[0]) + DataSize(ms[0])), name)
  {
  }

  // ----- the walk in ex62's exec -----

  /** `!memcmp(b + p, s, n)`, where `b + p` holds the C string `name` and `s` ends in a NUL. With
      a negative `n` nothing is compared. */
  method MemEq(b: seq<byte>, p: nat, s: seq<byte>, n: int, ghost name: seq<byte>) returns (eq: bool)
    requires 0 !in name && 0 !in s && p <= |b| && name + [0] <= b[p..]
    requires n <= |s| || n == |name| + 1
    ensures eq <==> (if n < 0 then true else if n <= |s| then s[..n] <= name else s == name)
  {
    StringAt(b, p, name);
    var i := 0;
    while i < n
      invariant 0 <= i && (0 < n ==> i <= n) && i <= |name| + 1 && i <= |s| + 1
      invariant i <= |name| ==> i <= |s| && name[..i] == s[..i]
      invariant i == |name| + 1 ==> n == i && s == name
      decreases n - i
    {
      assert b[p + i] == At(name, i);
      if b[p + i] != At(s, i) {
        DifferAt(name, s, n, i);
        return false;
      }
      if i == |name| { assert name[..i] == name && s[..i] == s; }
      i := i + 1;
    }
    return true;
  }

  lemma DifferAt(name: seq<byte>, s: seq<byte>, n: nat, i: nat)
    requires i < n && i <= |name| && i <= |s| && At(name, i) != At(s, i) && (n <= |s| || n == |name| + 1)
    ensures !(if n <= |s| then s[..n] <= name else s == name)
  {
  }

  /** `align(n, 4)` on a 32-bit `int`. */
  function AlignInt(n: int): int {
    ToInt(AndNot(ToUint(n + 4 - 1), 4 - 1))
  }

  lemma AlignIntIs(n: nat)
    ensures AlignInt(ToInt(n)) == ToInt(n + Padding(n))
  {
    hide AndNot, Pow2, ToInt;
    Powers();
    ToIntSum(n, 3);
    AndNotMask(ToUint(n + 3), 2);
    AlignTurns(n);
  }

  /** Rounding before or after whole turns are lost. */
  lemma AlignTurns(n: nat)
    ensures var y := ToUint(n + 3); ToInt(y - y % 4) == ToInt(n + Padding(n))
  {
    hide ToInt, Padding;
    var y, k := ToUint(n + 3), (n + 3) / TWO_TO_THE_32;
    TurnsOfFour(y, k);
    RoundUpPadding(0, n);
    Turns(y - y % 4, k);
  }

  lemma TurnsOfFour(y: nat, k: nat)
    ensures (y + k * TWO_TO_THE_32) % 4 == y % 4
  {
    var q, r := y / 4, y % 4;
    assert y + k * TWO_TO_THE_32 == 4 * (q + 0x4000_0000 * k) + r;
  }

  /** What one round of the loop in `exec` does. */
  datatype Round = Stop | Match(size: int, start: int) | Next(step: int)

  /** The round that starts at the header of the first of the members `ms`: all sizes are 32-bit
      ints, and a negative name size makes any name match. */
  ghost function ExecRound(ms: seq<Member>, filename: seq<byte>): Round {
    if ms == [] || TRAILER <= ms[0].name then Stop
    else if |ms[0].name| + 1 >= 0x8000_0000 || ms[0].name == filename then
      Match(ToInt(|ms[0].data|), ToInt(HeadSize(ms[0])))
    else Next(ToInt(HeadSize(ms[0]) + DataSize(ms[0])))
  }

  /** One round: test for the trailer, read the sizes, compare the name, step. */
  method ExecOnce(b: seq<byte>, p: nat, filename: seq<byte>, ghost ms: seq<Member>, ghost end: Member)
    returns (r: Round)
    requires Standing(b, p, ms, end) && 0 !in filename
    ensures r == ExecRound(ms, filename)
  {
    hide CString, Terminated, CodeValue, AlignInt, HeadSize, DataSize, ToInt, Standing, RecordAt, AllHex;
    ghost var m := First(ms, end);
    StandingFields(b, p, ms, end);
    var last := MemEq(b, p + HEADER, TRAILER, 10, m.name);
    assert TRAILER[..10] == TRAILER;
    if last {
      return Stop;
    }
    var nameSize := HexToI(b[p + 94..p + 102]);
    var fileSize := HexToI(b[p + 54..p + 62]);
    var headSize := AlignInt(ToInt(HEADER + nameSize));
    var dataSize := AlignInt(fileSize);
    SizesWrap(m);
    var same := MemEq(b, p + HEADER, filename, nameSize, m.name);
    if same {
      return Match(fileSize, headSize);
    }
    return Next(ToInt(headSize + dataSize));
  }

  lemma NegativeInt(n: nat)
    requires n < TWO_TO_THE_32
    ensures ToInt(n) == if n < 0x8000_0000 then n else n - TWO_TO_THE_32
  {
  }

  /** The wrapped sizes and their sum, for the fields of a member. */
  lemma SizesWrap(m: Member)
    requires WellFormed(m)
    ensures var n := |m.name| + 1;
      && AlignInt(ToInt(HEADER + ToInt(n))) == ToInt(HeadSize(m)) && AlignInt(ToInt(|m.data|)) == ToInt(DataSize(m))
      && ToInt(ToInt(HeadSize(m)) + ToInt(DataSize(m))) == ToInt(HeadSize(m) + DataSize(m))
      && (ToInt(n) < 0 <==> n >= 0x8000_0000) && (ToInt(n) >= 0 ==> ToInt(n) == n)
  {
    hide AlignInt, ToInt, Padding;
    var n := |m.name| + 1;
    NegativeInt(n);
    ToIntSum(n, HEADER);
    AlignIntIs(HEADER + n);
    AlignIntIs(|m.data|);
    ToIntSum(HeadSize(m), ToInt(DataSize(m)));
    ToIntSum(DataSize(m), HeadSize(m));
  }

  /** How the walk of `exec` ends: at the trailer, at a match, or when the cursor leaves the
      headers of the archive. */
  datatype Walk = Ends | Finds(size: int, start: int) | Strays

  ghost function ExecWalk(ms: seq<Member>, filename: seq<byte>, off: nat): Walk {
    match ExecRound(ms, filename)
    case Stop => Ends
    case Match(size, start) => Finds(size, off + start)
    case Next(step) =>
      if step == HeadSize(ms[0]) + DataSize(ms[0]) then ExecWalk(ms[1..], filename, off + step) else Strays
  }

  /** The loop of `exec`, as long as it stays inside the archive. */
  method ExecFind(b: seq<byte>, filename: seq<byte>, ghost ms: seq<Member>, ghost end: Member) returns (r: Walk)
    requires Standing(b, 0, ms, end) && 0 !in filename && ExecWalk(ms, filename, 0) != Strays
    ensures r == ExecWalk(ms, filename, 0)
  {
    hide ExecRound, HeadSize, DataSize, Standing;
    var p: nat := 0;
    ghost var rest := ms;
    while true
      invariant Standing(b, p, rest, end)
      invariant ExecWalk(rest, filename, p) == ExecWalk(ms, filename, 0)
      decreases |rest|
    {
      var round := ExecOnce(b, p, filename, rest, end);
      RoundMembers(rest, filename);
      match round {
        case Stop => return Ends;
        case Match(size, start) => return Finds(size, p + start);
        case Next(step) =>
          StandingNext(b, p, rest, end);
          p := p + step;
          rest := rest[1..];
      }
    }
  }

  lemma RoundMembers(ms: seq<Member>, filename: seq<byte>)
    ensures ExecRound(ms, filename).Next? ==> ms != []
  {
  }

  /** The members that `exec` passes over are smaller than 2^31 bytes with head and padding, and
      the first one with the name has a size, and a data start, below 2^31. */
  ghost predicate Walkable(ms: seq<Member>, filename: seq<byte>) {
    if ms == [] || TRAILER <= ms[0].name then true
    else if ms[0].name == filename then HeadSize(ms[0]) < 0x8000_0000 && |ms[0].data| < 0x8000_0000
    else HeadSize(ms[0]) + DataSize(ms[0]) < 0x8000_0000 && Walkable(ms[1..], filename)
  }

  /** The end of the walk that the archive asks for. */
  function Wanted(goal: Option<Entry>): Walk {
    match goal
    case None => Ends
    case Some(e) => Finds(e.size, e.start)
  }

  /** The walk of `exec` finds the first member with the name before the trailer, or none,
      exactly if the sizes on its way are small enough. */
  lemma {:induction false} ExecWalkRight(ms: seq<Member>, filename: seq<byte>, off: nat)
    requires AllWellFormed(ms)
    ensures ExecWalk(ms, filename, off) == Wanted(Find(Entries(Visible(ms, true), off), filename))
       <==> Walkable(ms, filename)
  {
    hide ToInt, Padding, HeadSize, DataSize, Entries, Find, Visible;
    FindStep(ms, off, true, filename);
    if ms != [] && !(TRAILER <= ms[0].name) {
      var m := ms[0];
      var off' := off + HeadSize(m) + DataSize(m);
      IntSizes(m);
      if ms[0].name != filename {
        FindsBehind(Visible(ms[1..], true), off', filename);
        ExecWalkRight(ms[1..], filename, off');
      }
    }
  }

  /** The wrapped sizes are right exactly if they are small enough, and never too large. */
  lemma IntSizes(m: Member)
    requires WellFormed(m)
    ensures |m.name| + 1 < HeadSize(m) && |m.data| <= DataSize(m)
    ensures ToInt(HeadSize(m)) <= HeadSize(m)
    ensures ToInt(HeadSize(m)) == HeadSize(m) <==> HeadSize(m) < 0x8000_0000
    ensures ToInt(|m.data|) == |m.data| <==> |m.data| < 0x8000_0000
    ensures ToInt(HeadSize(m) + DataSize(m)) == HeadSize(m) + DataSize(m)
       <==> HeadSize(m) + DataSize(m) < 0x8000_0000
  {
    ToIntIs(HeadSize(m));
    ToIntIs(|m.data|);
    ToIntIs(HeadSize(m) + DataSize(m));
  }

  /** Data starts behind the place where the walk stands. */
  lemma {:induction false} FindsBehind(ms: seq<Member>, off: nat, filename: seq<byte>)
    ensures var r := Find(Entries(ms, off), filename); r.Some? ==> r.value.start > off
  {
    if ms != [] {
      var es := Entries(ms, off);
      assert es[1..] == Entries(ms[1..], off + HeadSize(ms[0]) + DataSize(ms[0]));
      FindsBehind(ms[1..], off + HeadSize(ms[0]) + DataSize(ms[0]), filename);
    }
  }

  /** A member of 2^31 - 112 bytes sends the cursor 2^31 bytes back. */
  lemma HugeMember(m: Member, filename: seq<byte>)
    requires |m.name| == 1 && |m.data| == 0x7fff_ff90 && m.name != filename
    ensures ExecRound([m], filename) == Next(-0x8000_0000)
  {
    assert !(TRAILER <= m.name);
  }

  // ----- the round trip -----

  /** Every entry holds the name, the size and the data of its member. */
  lemma {:induction false} EntriesAreMembers(b: seq<byte>, off: nat, ms: seq<Member>, end: Member, i: nat)
    requires Standing(b, off, ms, end) && i < |ms|
    ensures |Entries(ms, off)| == |ms|
    ensures var e := Entries(ms, off)[i];
      && e.name == ms[i].name && e.size == |ms[i].data|
      && e.start + e.size <= |b| && b[e.start..e.start + e.size] == ms[i].data
    decreases |ms|
  {
    hide CodeValue, CString, Terminated, Hex, Padding, Archive, HeadSize, DataSize, AllHex, IsTrailer;
    StandingFields(b, off, ms, end);
    StandingNext(b, off, ms, end);
    PaddedSizes(ms[0]);
    var off' := off + HeadSize(ms[0]) + DataSize(ms[0]);
    var more := Entries(ms[1..], off');
    assert Entries(ms, off) == [Entry(ms[0].name, |ms[0].data|, off + HeadSize(ms[0]))] + more;
    if |ms| > 1 {
      EntriesAreMembers(b, off', ms[1..], end, if i > 0 then i - 1 else 0);
      assert i > 0 ==> Entries(ms, off)[i] == more[i - 1] && ms[i] == ms[1..][i - 1];
    } else {
      assert ms[1..] == [];
    }
  }

  /** Without members that look like the trailer, the walk of `exec` finds what those of `ex22`
      find, the first match among all members, exactly if the sizes on its way are small enough. */
  lemma SameFirstMatch(ms: seq<Member>, filename: seq<byte>)
    requires AllWellFormed(ms) && forall i :: 0 <= i < |ms| ==> !(TRAILER <= ms[i].name)
    ensures Find(Entries(Visible(ms, false), 0), filename) == Find(Entries(ms, 0), filename)
    ensures ExecWalk(ms, filename, 0) == Wanted(Find(Entries(Visible(ms, false), 0), filename))
       <==> Walkable(ms, filename)
  {
    AllVisible(ms, true);
    AllVisible(ms, false);
    ExecWalkRight(ms, filename, 0);
    forall i | 0 <= i < |ms| ensures ms[i].name != TRAILER { assert !(TRAILER <= ms[i].name); }
  }

  /** What `Find` returns is the first entry with the name. */
  lemma {:induction false} FindIsFirst(es: seq<Entry>, name: seq<byte>)
    ensures var r := Find(es, name);
      && (r.None? <==> forall i :: 0 <= i < |es| ==> es[i].name != name)
      && (r.Some? ==> exists i :: 0 <= i < |es| && es[i] == r.value && es[i].name == name &&
                        forall j :: 0 <= j < i ==> es[j].name != name)
  {
    if es != [] && es[0].name != name {
      FindIsFirst(es[1..], name);
      assert forall i :: 0 < i < |es| ==> es[i] == es[1..][i - 1];
      var r := Find(es, name);
      if r.Some? {
        var i :| 0 <= i < |es[1..]| && es[1..][i] == r.value && es[1..][i].name == name &&
                 forall j :: 0 <= j < i ==> es[1..][j].name != name;
        assert es[i + 1] == r.value;
        assert forall j :: 0 <= j < i + 1 ==> es[j].name != name;
      }
    }
  }
}

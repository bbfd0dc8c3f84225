/** `strncmp2`, `fdt_path_offset` and `fdt_getprop`: the flat scanner against descent in the tree. */
module FdtLookup {
  import opened Bytes
  import opened Wrappers
  import opened FdtFormat

  const SLASH: byte := 47
  const AT_SIGN: byte := 64

  // ----- comparing a node name with the rest of a path -----

  /** The name is accepted for the path rest: it is a prefix of it, or, with no `@` anywhere in
      the rest, it agrees up to its own `@`, where the path component ends. */
  ghost predicate Accepts(name: seq<byte>, path: seq<byte>) {
    name <= path || (AT_SIGN !in path && exists k :: UnitAddressCut(name, path, k))
  }

  ghost predicate UnitAddressCut(name: seq<byte>, path: seq<byte>, k: nat) {
    && k < |name| && k <= |path| && name[..k] == path[..k] && name[k] == AT_SIGN
    && (k == |path| || path[k] == SLASH)
  }

  /** `strncmp2`, with `len` the length of the name. */
  method Strncmp2(name: seq<byte>, path: seq<byte>) returns (same: bool)
    requires 0 !in name && 0 !in path
    ensures same <==> Accepts(name, path)
  {
    var i := 0;
    var haveAt := false;
    while true
      invariant i <= |path| && AT_SIGN !in path[..i] && !haveAt
      decreases |path| - i
    {
      if At(path, i) == AT_SIGN {
        haveAt := true;
        break;
      }
      if At(path, i) == 0 {
        break;
      }
      i := i + 1;
    }
    assert haveAt <==> AT_SIGN in path;
    var j := 0;
    while j < |name|
      invariant j <= |name| && j <= |path| && name[..j] == path[..j]
    {
      if name[j] != At(path, j) {
        FirstDifference(name, path, j);
        if !haveAt && name[j] == AT_SIGN && (At(path, j) == SLASH || At(path, j) == 0) {
          return true;
        }
        return false;
      }
      j := j + 1;
    }
    return true;
  }

  lemma CommonPrefix(a: seq<byte>, b: seq<byte>, n: nat, i: nat)
    requires i < n <= |a| && n <= |b| && a[..n] == b[..n]
    ensures a[i] == b[i]
  {
  }

  /** At the first difference the outcome is decided. */
  lemma FirstDifference(name: seq<byte>, path: seq<byte>, j: nat)
    requires 0 !in name && 0 !in path && j < |name| && j <= |path|
    requires name[..j] == path[..j] && name[j] != At(path, j)
    ensures Accepts(name, path) <==>
              AT_SIGN !in path && name[j] == AT_SIGN && (At(path, j) == SLASH || At(path, j) == 0)
  {
    if name <= path { PrefixIndex(name, path, j); }
    forall k: nat | UnitAddressCut(name, path, k) ensures k == j {
      if k < j { CommonPrefix(name, path, j, k); }
      if j < k { CommonPrefix(name, path, k, j); }
    }
    if At(path, j) == SLASH || At(path, j) == 0 {
      assert name[j] == AT_SIGN ==> UnitAddressCut(name, path, j);
    }
  }

  // ----- descent in the tree -----

  /** Length of the encoding of the first item. */
  function ItemSize(t: Items): nat
    requires WellFormed(t)
  {
    match t
    case Nil => 0
    case Prop(nameOff, value, rest) => |PropToken(nameOff, value)|
    case Nop(rest) => 4
    case Node(name, body, rest) => |NodeHead(name)| + |Flat(body)| + 4
  }

  /** Recursive descent: at each level it commits to the first child that is accepted for the
      rest of the path, and returns the offset of the last one. */
  ghost function Descend(t: Items, off: nat, comps: seq<seq<byte>>): Option<nat>
    requires WellFormed(t) && comps != []
  {
    match t
    case Nil => None
    case Prop(_, _, rest) => Descend(rest, off + ItemSize(t), comps)
    case Nop(rest) => Descend(rest, off + ItemSize(t), comps)
    case Node(name, body, rest) =>
      if Accepts(name, comps[0]) then
        if |comps| == 1 then Some(off) else Descend(body, off + |NodeHead(name)|, comps[1..])
      else Descend(rest, off + ItemSize(t), comps)
  }

  /** From the root: the first node of the block is the root, and the path starts below it. */
  ghost function Resolve(t: Items, off: nat, comps: seq<seq<byte>>): Option<nat>
    requires WellFormed(t) && comps != []
  {
    match t
    case Nil => None
    case Prop(_, _, rest) => Resolve(rest, off + ItemSize(t), comps)
    case Nop(rest) => Resolve(rest, off + ItemSize(t), comps)
    case Node(name, body, rest) => Descend(body, off + |NodeHead(name)|, comps)
  }

  /** The rests of the path after each of its slashes. */
  ghost function Components(path: seq<byte>): seq<seq<byte>> {
    if path == [] then []
    else if path[0] == SLASH then [path[1..]] + Components(path[1..])
    else Components(path[1..])
  }

  // ----- the scanner -----

  /** The bytes still to come: the items of the current node, then for each enclosing node its
      end and the items after it, then FDT_END. `stack[0]` belongs to the innermost node. */
  ghost function Remaining(cur: Items, stack: seq<Items>): seq<byte>
    requires WellFormed(cur) && AllWellFormed(stack)
  {
    Flat(cur) + Closing(stack)
  }

  ghost function Closing(stack: seq<Items>): seq<byte>
    requires AllWellFormed(stack)
  {
    if stack == [] then BigEndian(FDT_END)
    else BigEndian(FDT_END_NODE) + (Flat(stack[0]) + Closing(stack[1..]))
  }

  ghost predicate AllWellFormed(stack: seq<Items>) {
    forall i :: 0 <= i < |stack| ==> WellFormed(stack[i])
  }

  /** The items that are left after closing `j` nodes, and where they start. */
  ghost function ItemsAt(cur: Items, stack: seq<Items>, j: nat): Items
    requires j <= |stack|
  {
    if j == 0 then cur else stack[j - 1]
  }

  ghost function OffsetAt(cur: Items, stack: seq<Items>, off: nat, j: nat): nat
    requires WellFormed(cur) && AllWellFormed(stack) && j <= |stack|
    decreases j
  {
    if j == 0 then off else OffsetAt(stack[0], stack[1..], off + |Flat(cur)| + 4, j - 1)
  }

  /** The scanner inside the tree: `m` components are matched, so the list in which the next
      one is looked for is the one at depth `m + 1`, and the answer is what descent finds there. */
  ghost predicate Scanning(cur: Items, stack: seq<Items>, off: nat, m: nat, comps: seq<seq<byte>>, goal: Option<nat>) {
    && WellFormed(cur) && AllWellFormed(stack) && m < |comps|
    && if stack == [] then m == 0 && goal == Resolve(cur, off, comps)
       else |stack| > m && var j := |stack| - (m + 1);
            goal == Descend(ItemsAt(cur, stack, j), OffsetAt(cur, stack, off, j), comps[m..])
  }

  lemma {:induction false} OffsetShift(cur: Items, cur': Items, stack: seq<Items>, off: nat, off': nat, j: nat)
    requires WellFormed(cur) && WellFormed(cur') && AllWellFormed(stack) && 0 < j <= |stack|
    requires off + |Flat(cur)| == off' + |Flat(cur')|
    ensures OffsetAt(cur, stack, off, j) == OffsetAt(cur', stack, off', j)
  {
  }

  /** A property or NOP is passed over. */
  lemma ScanSkip(cur: Items, stack: seq<Items>, off: nat, m: nat, comps: seq<seq<byte>>, goal: Option<nat>)
    requires Scanning(cur, stack, off, m, comps, goal) && (cur.Prop? || cur.Nop?)
    ensures Scanning(cur.rest, stack, off + ItemSize(cur), m, comps, goal)
  {
    var j := |stack| - (m + 1);
    if stack != [] && j > 0 { OffsetShift(cur, cur.rest, stack, off, off + ItemSize(cur), j); }
  }

  /** A node that is not the one looked for (or the root) is entered, to be passed over. */
  lemma ScanEnter(cur: Items, stack: seq<Items>, off: nat, m: nat, comps: seq<seq<byte>>, goal: Option<nat>)
    requires Scanning(cur, stack, off, m, comps, goal) && cur.Node?
    requires |stack| == m + 1 ==> !Accepts(cur.name, comps[m])
    ensures Scanning(cur.body, [cur.rest] + stack, off + |NodeHead(cur.name)|, m, comps, goal)
  {
    hide NodeHead, BigEndian, Accepts, Descend;
    var stack' := [cur.rest] + stack;
    var off' := off + |NodeHead(cur.name)|;
    assert stack'[1..] == stack && stack'[0] == cur.rest;
    if stack != [] {
      var j := |stack| - (m + 1);
      EnterOffset(cur, stack, off, j);
      DescendSkip(cur, off, comps[m..]);
    }
  }

  /** A node that is not accepted is skipped by the descent. */
  lemma DescendSkip(t: Items, off: nat, comps: seq<seq<byte>>)
    requires WellFormed(t) && t.Node? && comps != []
    ensures !Accepts(t.name, comps[0]) ==> Descend(t, off, comps) == Descend(t.rest, off + ItemSize(t), comps)
  {
  }

  /** Entering a node moves every enclosing list one level up, to the same place. */
  lemma EnterOffset(cur: Items, stack: seq<Items>, off: nat, j: nat)
    requires WellFormed(cur) && AllWellFormed(stack) && cur.Node? && j <= |stack|
    ensures AllWellFormed([cur.rest] + stack)
    ensures OffsetAt(cur.body, [cur.rest] + stack, off + |NodeHead(cur.name)|, j + 1)
         == if j == 0 then off + ItemSize(cur) else OffsetAt(cur, stack, off, j)
  {
    hide NodeHead, BigEndian;
    var stack' := [cur.rest] + stack;
    assert stack'[1..] == stack && stack'[0] == cur.rest;
    if j > 0 { OffsetShift(cur, cur.rest, stack, off, off + ItemSize(cur), j); }
  }

  /** The node is accepted for the next component. */
  lemma ScanMatch(cur: Items, stack: seq<Items>, off: nat, m: nat, comps: seq<seq<byte>>, goal: Option<nat>)
    requires Scanning(cur, stack, off, m, comps, goal) && cur.Node? && |stack| == m + 1 && Accepts(cur.name, comps[m])
    ensures m + 1 == |comps| ==> goal == Some(off)
    ensures m + 1 < |comps| ==> Scanning(cur.body, [cur.rest] + stack, off + |NodeHead(cur.name)|, m + 1, comps, goal)
  {
  }

  /** The end of a node that is passed over. */
  lemma ScanLeave(cur: Items, stack: seq<Items>, off: nat, m: nat, comps: seq<seq<byte>>, goal: Option<nat>)
    requires Scanning(cur, stack, off, m, comps, goal) && cur.Nil? && stack != []
    ensures |stack| == m + 1 ==> goal == None
    ensures |stack| > m + 1 ==> Scanning(stack[0], stack[1..], off + 4, m, comps, goal)
  {
  }

  // ----- the bytes under the scanner -----

  /** The scanner stands at `off`, 4-aligned, in front of the remaining bytes. */
  ghost predicate Facing(b: seq<byte>, off: nat, cur: Items, stack: seq<Items>) {
    && WellFormed(cur) && AllWellFormed(stack)
    && off <= |b| && off % 4 == 0 && Remaining(cur, stack) <= b[off..]
  }

  /** The token that the scanner reads. */
  ghost function NextToken(cur: Items, stack: seq<Items>): nat {
    match cur
    case Nil => if stack == [] then FDT_END else FDT_END_NODE
    case Prop(_, _, _) => FDT_PROP
    case Nop(_) => FDT_NOP
    case Node(_, _, _) => FDT_BEGIN_NODE
  }

  lemma FacingToken(b: seq<byte>, off: nat, cur: Items, stack: seq<Items>)
    requires Facing(b, off, cur, stack)
    ensures off + 4 <= |b| && off % 4 == 0 && Token(b, off) == NextToken(cur, stack)
    ensures WellFormed(cur) && (cur.Node? ==> WellFormed(cur.body))
  {
    var t := BigEndian(NextToken(cur, stack));
    var r := Remaining(cur, stack);
    RemainingStarts(cur, stack);
    assert r == t + r[4..];
    PrefixSplit(b, off, t, r[4..]);
    PrefixAt(b, off, t);
    TokenIs(b, off, NextToken(cur, stack));
  }

  lemma RemainingStarts(cur: Items, stack: seq<Items>)
    requires WellFormed(cur) && AllWellFormed(stack)
    ensures |Remaining(cur, stack)| >= 4 && Remaining(cur, stack)[..4] == BigEndian(NextToken(cur, stack))
  {
  }

  /** Passing over a NOP, a property, the head of a node, the end of a node. */
  lemma FacingSkip(b: seq<byte>, off: nat, cur: Items, stack: seq<Items>)
    requires Facing(b, off, cur, stack) && (cur.Prop? || cur.Nop?)
    ensures Facing(b, off + ItemSize(cur), cur.rest, stack)
  {
    hide Remaining, PropToken, BigEndian;
    var p := SkipRemaining(cur, stack);
    PrefixSplit(b, off, p, Remaining(cur.rest, stack));
  }

  lemma SkipRemaining(cur: Items, stack: seq<Items>) returns (p: seq<byte>)
    requires WellFormed(cur) && AllWellFormed(stack) && (cur.Prop? || cur.Nop?)
    ensures |p| == ItemSize(cur) && |p| % 4 == 0
    ensures WellFormed(cur.rest) && Remaining(cur, stack) == p + Remaining(cur.rest, stack)
  {
    hide Closing, PropToken, BigEndian;
    p := if cur.Prop? then PropToken(cur.nameOff, cur.value) else BigEndian(FDT_NOP);
    assert Flat(cur) == p + Flat(cur.rest);
    Assoc(p, Flat(cur.rest), Closing(stack));
  }

  lemma FacingEnter(b: seq<byte>, off: nat, cur: Items, stack: seq<Items>)
    requires Facing(b, off, cur, stack) && cur.Node?
    ensures Facing(b, off + |NodeHead(cur.name)|, cur.body, [cur.rest] + stack)
  {
    hide NodeHead, Remaining;
    var p := NodeHead(cur.name);
    EnterRemaining(cur, stack);
    PrefixSplit(b, off, p, Remaining(cur.body, [cur.rest] + stack));
  }

  lemma EnterRemaining(cur: Items, stack: seq<Items>)
    requires WellFormed(cur) && AllWellFormed(stack) && cur.Node?
    ensures AllWellFormed([cur.rest] + stack)
    ensures Remaining(cur, stack) == NodeHead(cur.name) + Remaining(cur.body, [cur.rest] + stack)
  {
    hide BigEndian, NodeHead;
    var inner := [cur.rest] + stack;
    assert inner[1..] == stack;
    var body, tail := Flat(cur.body), BigEndian(FDT_END_NODE) + Flat(cur.rest);
    assert Flat(cur) == NodeHead(cur.name) + (body + tail);
    Assoc(NodeHead(cur.name), body + tail, Closing(stack));
    Assoc(body, tail, Closing(stack));
    Assoc(BigEndian(FDT_END_NODE), Flat(cur.rest), Closing(stack));
  }

  lemma LeaveRemaining(cur: Items, stack: seq<Items>)
    requires WellFormed(cur) && AllWellFormed(stack) && cur.Nil? && stack != []
    ensures WellFormed(stack[0]) && AllWellFormed(stack[1..])
    ensures Remaining(cur, stack) == BigEndian(FDT_END_NODE) + Remaining(stack[0], stack[1..])
  {
    hide BigEndian;
  }

  lemma FacingLeave(b: seq<byte>, off: nat, cur: Items, stack: seq<Items>)
    requires Facing(b, off, cur, stack) && cur.Nil? && stack != []
    ensures Facing(b, off + 4, stack[0], stack[1..])
  {
    hide BigEndian, Flat;
    LeaveRemaining(cur, stack);
    PrefixSplit(b, off, BigEndian(FDT_END_NODE), Remaining(stack[0], stack[1..]));
  }

  /** The name behind FDT_BEGIN_NODE. */
  lemma FacingName(b: seq<byte>, off: nat, cur: Items, stack: seq<Items>)
    requires Facing(b, off, cur, stack) && cur.Node?
    ensures off + 4 <= |b| && cur.name + [0] <= b[off + 4..]
    ensures off + 4 + |cur.name| < |b| && b[off + 4..off + 4 + |cur.name|] == cur.name && 0 !in cur.name
  {
  }

  lemma PaddedStarts(s: seq<byte>)
    ensures Padded(s) == s + Padded(s)[|s|..]
  {
  }

  /** The bytes of a property: token, length, name offset, value, padding. */
  lemma PropRemaining(cur: Items, stack: seq<Items>) returns (z: seq<byte>)
    requires WellFormed(cur) && AllWellFormed(stack) && cur.Prop?
    ensures WellFormed(cur.rest)
    ensures Remaining(cur, stack) ==
      BigEndian(FDT_PROP) + (BigEndian(|cur.value|)
        + (BigEndian(cur.nameOff) + (cur.value + (z + Remaining(cur.rest, stack)))))
  {
    hide Closing, Padded, BigEndian;
    var v := cur.value;
    z := Padded(v)[|v|..];
    PaddedStarts(v);
    FiveParts(BigEndian(FDT_PROP), BigEndian(|v|), BigEndian(cur.nameOff), v, z, Flat(cur.rest), Closing(stack));
  }

  lemma FiveParts(a: seq<byte>, b: seq<byte>, c: seq<byte>, v: seq<byte>, z: seq<byte>, r: seq<byte>, s: seq<byte>)
    ensures (a + b + c + (v + z)) + r + s == a + (b + (c + (v + (z + (r + s)))))
  {
    Assoc(a + b + c + (v + z), r, s);
    Assoc(a + b + c, v + z, r + s);
    Assoc(v, z, r + s);
    Assoc(a + b, c, v + (z + (r + s)));
    Assoc(a, b, c + (v + (z + (r + s))));
  }

  /** The length field of a property. */
  lemma FacingProp(b: seq<byte>, off: nat, cur: Items, stack: seq<Items>)
    requires Facing(b, off, cur, stack) && cur.Prop?
    ensures off + 12 + |cur.value| <= |b|
    ensures Token(b, off + 4) == |cur.value| && Token(b, off + 8) == cur.nameOff
    ensures b[off + 12..off + 12 + |cur.value|] == cur.value
  {
    hide Remaining, BigEndian, Token;
    var z := PropRemaining(cur, stack);
    var v, more := cur.value, Remaining(cur.rest, stack);
    var l, o := BigEndian(|v|), BigEndian(cur.nameOff);
    PrefixSplit(b, off, BigEndian(FDT_PROP), l + (o + (v + (z + more))));
    PrefixSplit(b, off + 4, l, o + (v + (z + more)));
    PrefixSplit(b, off + 8, o, v + (z + more));
    PrefixSplit(b, off + 12, v, z + more);
    PrefixAt(b, off + 4, l);
    PrefixAt(b, off + 8, o);
    PrefixAt(b, off + 12, v);
    TokenIs(b, off + 4, |v|);
    TokenIs(b, off + 8, cur.nameOff);
  }
}

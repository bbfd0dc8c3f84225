/** The scanning loops of `fdt_path_offset` and `fdt_getprop`. */
module FdtScanner {
  import opened Bytes
  import opened Machine
  import opened Wrappers
  import opened FdtFormat
  import opened FdtLookup

  /** A blob: its header gives the place of the structure block, which encodes the items `t`. */
  ghost predicate Blob(b: seq<byte>, t: Items) {
    && 40 <= |b| && Token(b, 8) <= |b| && Facing(b, Token(b, 8), t, [])
  }

  /** A blob in memory that does not wrap, with room for the rounding of its end. */
  predicate InMemory(b: seq<byte>, fdt: nat) {
    fdt % 4 == 0 && |b| < 0x8000_0000 && fdt + |b| + 3 < TWO_TO_THE_64
  }

  /** Past `k` bytes of whole words and `n` more there is only padding. */
  lemma NextWord(fdt: nat, off: nat, k: nat, n: nat)
    requires fdt % 4 == 0 && off % 4 == 0 && k % 4 == 0 && fdt + off + k + n + 3 < TWO_TO_THE_64
    ensures AlignUp(fdt, off + k + n) == off + k + n + Padding(n)
  {
    hide AlignUp, Padding;
    AlignUpIs(fdt, off + k + n);
    PaddingBehind(off + k, n);
  }

  /** Whole words in front do not change the padding. */
  lemma PaddingBehind(w: nat, n: nat)
    requires w % 4 == 0
    ensures Padding(w + n) == Padding(n)
  {
  }

  /** The first loop of `fdt_path_offset`: where each component of the path starts. */
  method PathIndex(path: seq<byte>) returns (idx: array<nat>, depth: nat)
    requires |Components(path)| <= 10
    ensures fresh(idx) && idx.Length == 10 && depth == |Components(path)|
    ensures forall k :: 0 <= k < depth ==> idx[k] <= |path| && path[idx[k]..] == Components(path)[k]
  {
    idx := new nat[10](_ => 0);
    depth := 0;
    var i := 0;
    assert path[0..] == path;
    while i < |path|
      invariant i <= |path| && depth <= 10
      invariant depth + |Components(path[i..])| == |Components(path)|
      invariant Components(path)[depth..] == Components(path[i..])
      invariant forall k :: 0 <= k < depth ==> idx[k] <= |path| && path[idx[k]..] == Components(path)[k]
    {
      assert path[i..][1..] == path[i + 1..];
      if path[i] == SLASH {
        ghost var more := Components(path)[depth..];
        assert more[0] == path[i + 1..] && more[1..] == Components(path)[depth + 1..];
        idx[depth] := i + 1;
        depth := depth + 1;
      }
      i := i + 1;
    }
  }

  /** The flat scanner finds what recursive descent finds. */
  method FdtPathOffset(b: seq<byte>, fdt: nat, path: seq<byte>, ghost t: Items) returns (r: int)
    requires InMemory(b, fdt) && Blob(b, t)
    requires 0 !in path && 1 <= |Components(path)| <= 10
    ensures var goal := Resolve(t, Token(b, 8), Components(path));
      r == if goal.Some? then goal.value else -1
  {
    hide Facing, Scanning, Resolve, Descend, Token, Accepts, WellFormed, Flat, Components, BigEndian, AlignUp;
    hide NodeHead, PropToken, Padding, Padded;
    var pathIdx, pathDepth := PathIndex(path);
    var curDepth, matchingDepth := -2, 0;
    BlobFacing(b, t);
    var curOff: nat := Token(b, 8);
    ghost var comps := Components(path);
    ghost var goal := Resolve(t, curOff, comps);
    ghost var cur, stack: seq<Items> := t, [];
    ScanStart(t, curOff, comps);
    while true
      invariant Facing(b, curOff, cur, stack)
      invariant forall k :: 0 <= k < pathDepth ==> pathIdx[k] <= |path| && path[pathIdx[k]..] == comps[k]
      invariant matchingDepth < pathDepth && Scanning(cur, stack, curOff, matchingDepth, comps, goal)
      invariant curDepth == |stack| - 2
      modifies {}
      decreases |b| - curOff
    {
      FacingToken(b, curOff, cur, stack);
      ScanBounds(cur, stack, curOff, matchingDepth, comps, goal);
      var token := Token(b, curOff);
      if token == FDT_BEGIN_NODE {
        curDepth := curDepth + 1;
        FacingName(b, curOff, cur, stack);
        var len := StrLen(b, curOff + 4, cur.name);
        ghost var m := matchingDepth;
        if curDepth == matchingDepth {
          var same := Strncmp2(b[curOff + 4..curOff + 4 + len], path[pathIdx[curDepth]..]);
          if same {
            ScanMatch(cur, stack, curOff, m, comps, goal);
            matchingDepth := matchingDepth + 1;
            if matchingDepth == pathDepth { return curOff; }
          }
        }
        if matchingDepth == m { ScanEnter(cur, stack, curOff, m, comps, goal); }
        FacingEnter(b, curOff, cur, stack);
        NextWord(fdt, curOff, 4, len + 1);
        curOff := AlignUp(fdt, curOff + 4 + (len + 1));
        cur, stack := cur.body, [cur.rest] + stack;
      } else if token == FDT_END_NODE {
        curDepth := curDepth - 1;
        ScanLeave(cur, stack, curOff, matchingDepth, comps, goal);
        if curDepth + 1 < matchingDepth { return -1; }
        FacingLeave(b, curOff, cur, stack);
        curOff := curOff + 4;
        cur, stack := stack[0], stack[1..];
      } else if token == FDT_PROP {
        FacingProp(b, curOff, cur, stack);
        ScanSkip(cur, stack, curOff, matchingDepth, comps, goal);
        FacingSkip(b, curOff, cur, stack);
        var valueLen := Token(b, curOff + 4);
        NextWord(fdt, curOff, 12, valueLen);
        curOff := AlignUp(fdt, curOff + 0xc + valueLen);
        cur := cur.rest;
      } else if token == FDT_NOP {
        ScanSkip(cur, stack, curOff, matchingDepth, comps, goal);
        FacingSkip(b, curOff, cur, stack);
        curOff := curOff + 4;
        cur := cur.rest;
      } else {
        ScanEnd(cur, stack, curOff, matchingDepth, comps, goal);
        return -1;
      }
    }
  }

  lemma BlobFacing(b: seq<byte>, t: Items)
    requires Blob(b, t)
    ensures Facing(b, Token(b, 8), t, []) && WellFormed(t)
  {
  }

  lemma ScanStart(t: Items, off: nat, comps: seq<seq<byte>>)
    requires WellFormed(t) && comps != []
    ensures Scanning(t, [], off, 0, comps, Resolve(t, off, comps))
  {
  }

  lemma ScanBounds(cur: Items, stack: seq<Items>, off: nat, m: nat, comps: seq<seq<byte>>, goal: Option<nat>)
    requires Scanning(cur, stack, off, m, comps, goal)
    ensures WellFormed(cur) && AllWellFormed(stack) && (stack == [] || |stack| > m)
  {
  }

  lemma ScanEnd(cur: Items, stack: seq<Items>, off: nat, m: nat, comps: seq<seq<byte>>, goal: Option<nat>)
    requires Scanning(cur, stack, off, m, comps, goal) && cur.Nil? && stack == []
    ensures goal == None
  {
  }

  // ----- properties -----

  /** The names of all properties directly in `t` are terminated strings of the strings block. */
  ghost predicate Named(b: seq<byte>, strOff: nat, t: Items) {
    match t
    case Nil => true
    case Prop(nameOff, _, rest) => Terminated(b, strOff + nameOff) && Named(b, strOff, rest)
    case Nop(rest) => Named(b, strOff, rest)
    case Node(_, _, rest) => Named(b, strOff, rest)
  }

  /** The first property with the name, among the properties before any NOP or child node:
      where its value starts, and its value. */
  ghost function LeadingProp(b: seq<byte>, strOff: nat, t: Items, off: nat, name: seq<byte>): Option<(nat, seq<byte>)>
    requires WellFormed(t)
  {
    if !t.Prop? then None
    else if CString(b, strOff + t.nameOff) == name then Some((off + 12, t.value))
    else LeadingProp(b, strOff, t.rest, off + ItemSize(t), name)
  }

  /** `fdt_getprop` at the offset of a node: the offset of the value and its length. */
  method FdtGetProp(b: seq<byte>, fdt: nat, nodeOffset: nat, name: seq<byte>,
                    ghost node: Items, ghost stack: seq<Items>)
    returns (r: Option<(nat, nat)>)
    requires InMemory(b, fdt) && 40 <= |b| && 0 !in name
    requires Facing(b, nodeOffset, node, stack) && node.Node? && Named(b, Token(b, 12), node.body)
    ensures var goal := LeadingProp(b, Token(b, 12), node.body, nodeOffset + |NodeHead(node.name)|, name);
      && (r.Some? <==> goal.Some?)
      && (r.Some? ==> r.value.0 == goal.value.0 && r.value.1 == |goal.value.1| &&
                      r.value.0 + r.value.1 <= |b| && b[r.value.0..r.value.0 + r.value.1] == goal.value.1)
  {
    hide Facing, Token, Flat, CString, Padded, BigEndian, WellFormed, LeadingProp, Named, Terminated;
    hide NodeHead, PropToken, Padding, AlignUp, AnyProp;
    FacingToken(b, nodeOffset, node, stack);
    ghost var goal := LeadingProp(b, Token(b, 12), node.body, nodeOffset + |NodeHead(node.name)|, name);
    var strOff := Token(b, 12);
    FacingName(b, nodeOffset, node, stack);
    var len := StrLen(b, nodeOffset + 4, node.name);
    assert 4 + |node.name| + 1 + Padding(|node.name| + 1) == |NodeHead(node.name)|;
    NextWord(fdt, nodeOffset, 4, len + 1);
    var curOff: nat := AlignUp(fdt, nodeOffset + 4 + (len + 1));
    FacingEnter(b, nodeOffset, node, stack);
    ghost var cur, rests := node.body, [node.rest] + stack;
    FacingToken(b, curOff, cur, rests);
    while Token(b, curOff) == FDT_PROP
      invariant Facing(b, curOff, cur, rests) && WellFormed(cur) && curOff + 4 <= |b| && curOff % 4 == 0
      invariant WellFormed(cur) && Token(b, curOff) == NextToken(cur, rests)
      invariant Named(b, strOff, cur)
      invariant goal == LeadingProp(b, strOff, cur, curOff, name)
      decreases |b| - curOff
    {
      FacingProp(b, curOff, cur, rests);
      var valueLen := Token(b, curOff + 4);
      var nameOff := Token(b, curOff + 8);
      LeadingStep(b, strOff, cur, curOff, name);
      var found := StrEq(b, strOff + nameOff, name);
      if found {
        return Some((curOff + 0xc, valueLen));
      }
      FacingSkip(b, curOff, cur, rests);
      NextWord(fdt, curOff, 12, valueLen);
      curOff := AlignUp(fdt, curOff + 0xc + valueLen);
      cur := cur.rest;
      FacingToken(b, curOff, cur, rests);
    }
    LeadingStep(b, strOff, cur, curOff, name);
    return None;
  }

  lemma LeadingStep(b: seq<byte>, strOff: nat, t: Items, off: nat, name: seq<byte>)
    requires WellFormed(t) && Named(b, strOff, t)
    ensures !t.Prop? ==> LeadingProp(b, strOff, t, off, name) == None
    ensures t.Prop? ==>
      && Terminated(b, strOff + t.nameOff) && WellFormed(t.rest) && Named(b, strOff, t.rest)
      && (CString(b, strOff + t.nameOff) == name ==> LeadingProp(b, strOff, t, off, name) == Some((off + 12, t.value)))
      && (CString(b, strOff + t.nameOff) != name ==>
            LeadingProp(b, strOff, t, off, name) == LeadingProp(b, strOff, t.rest, off + ItemSize(t), name))
  {
  }

  // ----- when the scan finds the property the tree has -----

  /** The first property with the name, wherever it stands among the items of the node. */
  ghost function AnyProp(b: seq<byte>, strOff: nat, t: Items, off: nat, name: seq<byte>): Option<(nat, seq<byte>)>
    requires WellFormed(t)
  {
    match t
    case Nil => None
    case Prop(nameOff, value, rest) =>
      if CString(b, strOff + nameOff) == name then Some((off + 12, value))
      else AnyProp(b, strOff, rest, off + ItemSize(t), name)
    case Nop(rest) => AnyProp(b, strOff, rest, off + ItemSize(t), name)
    case Node(_, _, rest) => AnyProp(b, strOff, rest, off + ItemSize(t), name)
  }

  /** The items before and from the first NOP or child node. */
  ghost function AfterLeading(t: Items): Items {
    if t.Prop? then AfterLeading(t.rest) else t
  }

  ghost predicate HasProp(b: seq<byte>, strOff: nat, t: Items, name: seq<byte>) {
    match t
    case Nil => false
    case Prop(nameOff, _, rest) => CString(b, strOff + nameOff) == name || HasProp(b, strOff, rest, name)
    case Nop(rest) => HasProp(b, strOff, rest, name)
    case Node(_, _, rest) => HasProp(b, strOff, rest, name)
  }

  ghost predicate HasLeading(b: seq<byte>, strOff: nat, t: Items, name: seq<byte>) {
    t.Prop? && (CString(b, strOff + t.nameOff) == name || HasLeading(b, strOff, t.rest, name))
  }

  /** `fdt_getprop` returns the first property with the name exactly if one stands before any
      NOP and any child, or none stands after. */
  lemma {:induction false} LeadingComplete(b: seq<byte>, strOff: nat, t: Items, off: nat, name: seq<byte>)
    requires WellFormed(t)
    ensures LeadingProp(b, strOff, t, off, name) == AnyProp(b, strOff, t, off, name)
        <==> HasLeading(b, strOff, t, name) || !HasProp(b, strOff, AfterLeading(t), name)
  {
    if t.Prop? {
      if CString(b, strOff + t.nameOff) != name {
        LeadingComplete(b, strOff, t.rest, off + ItemSize(t), name);
      }
    } else {
      AnyIsSome(b, strOff, t, off, name);
    }
  }

  lemma {:induction false} AnyIsSome(b: seq<byte>, strOff: nat, t: Items, off: nat, name: seq<byte>)
    requires WellFormed(t)
    ensures AnyProp(b, strOff, t, off, name).Some? <==> HasProp(b, strOff, t, name)
  {
    match t
    case Nil =>
    case Prop(_, _, rest) => AnyIsSome(b, strOff, rest, off + ItemSize(t), name);
    case Nop(rest) => AnyIsSome(b, strOff, rest, off + ItemSize(t), name);
    case Node(_, _, rest) => AnyIsSome(b, strOff, rest, off + ItemSize(t), name);
  }

  /** Properties first, then child nodes, and no NOP before a property. */
  ghost predicate PropsFirst(t: Items) {
    if t.Prop? then PropsFirst(t.rest) else NoProps(t)
  }

  ghost predicate NoProps(t: Items) {
    match t
    case Nil => true
    case Prop(_, _, _) => false
    case Nop(rest) => NoProps(rest)
    case Node(_, _, rest) => NoProps(rest)
  }

  /** In nodes laid out as the standard has it, `fdt_getprop` finds every property. */
  lemma {:induction false} PropsFirstComplete(b: seq<byte>, strOff: nat, t: Items, off: nat, name: seq<byte>)
    requires WellFormed(t) && PropsFirst(t)
    ensures LeadingProp(b, strOff, t, off, name) == AnyProp(b, strOff, t, off, name)
  {
    LeadingComplete(b, strOff, t, off, name);
    NothingAfter(b, strOff, t, name);
  }

  lemma {:induction false} NothingAfter(b: seq<byte>, strOff: nat, t: Items, name: seq<byte>)
    requires PropsFirst(t)
    ensures !HasProp(b, strOff, AfterLeading(t), name)
  {
    if t.Prop? {
      NothingAfter(b, strOff, t.rest, name);
    } else {
      NothingThere(b, strOff, t, name);
    }
  }

  lemma {:induction false} NothingThere(b: seq<byte>, strOff: nat, t: Items, name: seq<byte>)
    requires NoProps(t)
    ensures !HasProp(b, strOff, t, name)
  {
    match t
    case Nil =>
    case Nop(rest) => NothingThere(b, strOff, rest, name);
    case Node(_, _, rest) => NothingThere(b, strOff, rest, name);
  }

  /** A NOP in front of a property hides it. */
  lemma NopHidesProp(b: seq<byte>, strOff: nat, nameOff: nat, value: seq<byte>, off: nat)
    requires nameOff < 0x1_0000_0000 && |value| < 0x1_0000_0000
    ensures var t := Nop(Prop(nameOff, value, Nil)); var name := CString(b, strOff + nameOff);
      && LeadingProp(b, strOff, t, off, name) == None
      && AnyProp(b, strOff, t, off, name) == Some((off + 16, value))
  {
  }
}

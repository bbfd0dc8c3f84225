/** Full paths of nodes, and exactly when `fdt_path_offset` leads them back to their node. */
module FdtPaths {
  import opened Bytes
  import opened Wrappers
  import opened FdtFormat
  import opened FdtLookup
  import opened FdtScanner

  /** The way to a node: past an item, down into a node, or here. */
  datatype Route = Here | Past(next: Route) | Down(next: Route)

  ghost predicate Leads(t: Items, r: Route) {
    match r
    case Here => t.Node?
    case Past(next) => !t.Nil? && Leads(t.rest, next)
    case Down(next) => t.Node? && Leads(t.body, next)
  }

  /** The names of the nodes on the way down, the target last. */
  ghost function Names(t: Items, r: Route): (ns: seq<seq<byte>>)
    requires Leads(t, r)
    ensures ns != []
  {
    match r
    case Here => [t.name]
    case Past(next) => Names(t.rest, next)
    case Down(next) => [t.name] + Names(t.body, next)
  }

  /** The offset of the target's FDT_BEGIN_NODE. */
  ghost function NodeOffset(t: Items, off: nat, r: Route): nat
    requires Leads(t, r) && WellFormed(t)
  {
    match r
    case Here => off
    case Past(next) => NodeOffset(t.rest, off + ItemSize(t), next)
    case Down(next) => NodeOffset(t.body, off + |NodeHead(t.name)|, next)
  }

  /** Names joined by slashes. */
  ghost function Join(ns: seq<seq<byte>>): seq<byte>
    requires ns != []
  {
    if |ns| == 1 then ns[0] else ns[0] + [SLASH] + Join(ns[1..])
  }

  /** What is left of the path at each level. */
  ghost function Rests(ns: seq<seq<byte>>): (cs: seq<seq<byte>>)
    requires ns != []
    ensures |cs| == |ns| && cs[0] == Join(ns)
  {
    if |ns| == 1 then [Join(ns)] else [Join(ns)] + Rests(ns[1..])
  }

  ghost predicate SlashFree(ns: seq<seq<byte>>) {
    forall i :: 0 <= i < |ns| ==> SLASH !in ns[i]
  }

  /** The components of a full path are the joined names from each level on. */
  lemma {:induction false} ComponentsOfPath(ns: seq<seq<byte>>)
    requires ns != [] && SlashFree(ns)
    ensures Components([SLASH] + Join(ns)) == Rests(ns)
  {
    var path := [SLASH] + Join(ns);
    assert path[1..] == Join(ns);
    if |ns| == 1 {
      NoSlash(ns[0], []);
      assert ns[0] + [] == ns[0];
    } else {
      var more := [SLASH] + Join(ns[1..]);
      assert Join(ns) == ns[0] + more;
      NoSlash(ns[0], more);
      ComponentsOfPath(ns[1..]);
    }
  }

  lemma {:induction false} NoSlash(s: seq<byte>, more: seq<byte>)
    requires SLASH !in s
    ensures Components(s + more) == Components(more)
  {
    if s == [] {
      assert s + more == more;
    } else {
      assert (s + more)[1..] == s[1..] + more;
      NoSlash(s[1..], more);
    }
  }

  // ----- which names are accepted for a full path -----

  /** The sibling name `s` is taken for the name at the head of `ns`: it is a prefix of it, or,
      with no `@` in the rest of the path, it is that name with a unit address. */
  ghost predicate Shadows(s: seq<byte>, ns: seq<seq<byte>>)
    requires ns != []
  {
    s <= ns[0] || (NoAt(ns) && ns[0] + [AT_SIGN] <= s)
  }

  ghost predicate NoAt(ns: seq<seq<byte>>) {
    forall i :: 0 <= i < |ns| ==> AT_SIGN !in ns[i]
  }

  lemma {:induction false} JoinNoAt(ns: seq<seq<byte>>)
    requires ns != []
    ensures AT_SIGN in Join(ns) <==> !NoAt(ns)
  {
    if |ns| > 1 {
      JoinNoAt(ns[1..]);
      assert NoAt(ns) <==> AT_SIGN !in ns[0] && NoAt(ns[1..]) by {
        assert forall i :: 0 < i < |ns| ==> ns[i] == ns[1..][i - 1];
      }
    }
  }

  /** `strncmp2` on a slash-free name and a full path, both directions. */
  lemma AcceptsFullPath(s: seq<byte>, ns: seq<seq<byte>>)
    requires ns != [] && SLASH !in s && SLASH !in ns[0]
    ensures Accepts(s, Join(ns)) <==> Shadows(s, ns)
  {
    var n, path := ns[0], Join(ns);
    JoinNoAt(ns);
    assert n <= path && (|n| == |path| || path[|n|] == SLASH) by { JoinStarts(ns); }
    PrefixOfHead(s, n, path);
    if k: nat :| UnitAddressCut(s, path, k) {
      CutAtHead(s, n, path, k);
    }
    if n + [AT_SIGN] <= s {
      assert (n + [AT_SIGN])[|n|] == AT_SIGN;
      assert UnitAddressCut(s, path, |n|);
    }
  }

  lemma JoinStarts(ns: seq<seq<byte>>)
    requires ns != []
    ensures var n, path := ns[0], Join(ns); n <= path && (|n| == |path| || path[|n|] == SLASH)
  {
  }

  /** A slash-free prefix of the path is a prefix of its first component. */
  lemma PrefixOfHead(s: seq<byte>, n: seq<byte>, path: seq<byte>)
    requires SLASH !in s && n <= path && (|n| == |path| || path[|n|] == SLASH)
    ensures s <= path <==> s <= n
  {
  }

  /** A unit address can be left out only at the end of the component. */
  lemma CutAtHead(s: seq<byte>, n: seq<byte>, path: seq<byte>, k: nat)
    requires SLASH !in s && SLASH !in n && n <= path && (|n| == |path| || path[|n|] == SLASH)
    requires UnitAddressCut(s, path, k)
    ensures k == |n| && n + [AT_SIGN] <= s
  {
  }

  // ----- the round trip -----

  /** No earlier sibling of the target or of a node above it shadows the one on the way. */
  ghost predicate Clear(t: Items, r: Route)
    requires Leads(t, r)
  {
    match r
    case Here => true
    case Past(next) => (t.Node? ==> !Shadows(t.name, Names(t.rest, next))) && Clear(t.rest, next)
    case Down(next) => Clear(t.body, next)
  }

  ghost predicate SlashFreeNames(t: Items) {
    match t
    case Nil => true
    case Prop(_, _, rest) => SlashFreeNames(rest)
    case Nop(rest) => SlashFreeNames(rest)
    case Node(name, body, rest) => SLASH !in name && SlashFreeNames(body) && SlashFreeNames(rest)
  }

  lemma FlatSize(t: Items)
    requires WellFormed(t)
    ensures t.Nil? ==> |Flat(t)| == 0
    ensures !t.Nil? ==> WellFormed(t.rest) && |Flat(t)| == ItemSize(t) + |Flat(t.rest)|
    ensures t.Node? ==> WellFormed(t.body) && ItemSize(t) == |NodeHead(t.name)| + |Flat(t.body)| + 4
  {
  }

  /** What descent finds lies inside the items that it searches. */
  lemma {:induction false} DescendInside(t: Items, off: nat, comps: seq<seq<byte>>)
    requires WellFormed(t) && comps != []
    ensures var d := Descend(t, off, comps); d.Some? ==> off <= d.value < off + |Flat(t)|
  {
    hide Flat, ItemSize, NodeHead, Accepts;
    FlatSize(t);
    match t
    case Nil =>
    case Prop(_, _, rest) => DescendInside(rest, off + ItemSize(t), comps);
    case Nop(rest) => DescendInside(rest, off + ItemSize(t), comps);
    case Node(name, body, rest) =>
      if Accepts(name, comps[0]) {
        if |comps| > 1 { DescendInside(body, off + |NodeHead(name)|, comps[1..]); }
      } else {
        DescendInside(rest, off + ItemSize(t), comps);
      }
  }

  lemma {:induction false} OffsetInside(t: Items, off: nat, r: Route)
    requires WellFormed(t) && Leads(t, r)
    ensures off <= NodeOffset(t, off, r) < off + |Flat(t)|
    decreases r
  {
    hide Flat, ItemSize, NodeHead;
    FlatSize(t);
    match r
    case Here =>
    case Past(next) => OffsetInside(t.rest, off + ItemSize(t), next);
    case Down(next) => OffsetInside(t.body, off + |NodeHead(t.name)|, next);
  }

  lemma RouteNames(t: Items, r: Route)
    requires Leads(t, r) && SlashFreeNames(t)
    ensures SlashFree(Names(t, r))
    decreases r
  {
  }

  /** Descent along the full path of a node ends at that node exactly if the way is clear. */
  lemma {:induction false} DescendPath(t: Items, off: nat, r: Route)
    requires WellFormed(t) && SlashFreeNames(t) && Leads(t, r)
    ensures Descend(t, off, Rests(Names(t, r))) == Some(NodeOffset(t, off, r)) <==> Clear(t, r)
    decreases r
  {
    hide Accepts, Shadows, NodeHead, BigEndian, Flat;
    var ns := Names(t, r);
    RouteNames(t, r);
    match r {
      case Here =>
        SelfShadows(ns);
        AcceptsFullPath(t.name, ns);
      case Down(next) =>
        SelfShadows(ns);
        AcceptsFullPath(t.name, ns);
        assert ns[1..] == Names(t.body, next);
        assert Rests(ns)[1..] == Rests(ns[1..]);
        DescendPath(t.body, off + |NodeHead(t.name)|, next);
      case Past(next) =>
        DescendPath(t.rest, off + ItemSize(t), next);
        if t.Node? { DescendPast(t, off, next); }
    }
  }

  lemma SelfShadows(ns: seq<seq<byte>>)
    requires ns != []
    ensures Shadows(ns[0], ns)
  {
  }

  /** A shadowing sibling sends the descent into its own subtree. */
  lemma DescendPast(t: Items, off: nat, next: Route)
    requires WellFormed(t) && SlashFreeNames(t) && t.Node? && Leads(t.rest, next)
    ensures var ns := Names(t.rest, next); var goal := Some(NodeOffset(t.rest, off + ItemSize(t), next));
      if Shadows(t.name, ns) then Descend(t, off, Rests(ns)) != goal
      else Descend(t, off, Rests(ns)) == Descend(t.rest, off + ItemSize(t), Rests(ns))
  {
    hide Accepts, Shadows, NodeHead, BigEndian;
    var ns := Names(t.rest, next);
    RouteNames(t.rest, next);
    AcceptsFullPath(t.name, ns);
    OffsetInside(t.rest, off + ItemSize(t), next);
    if |ns| > 1 { DescendInside(t.body, off + |NodeHead(t.name)|, Rests(ns)[1..]); }
  }

  /** The round trip through the whole block: the full path of a node below the root resolves
      to its offset exactly if the way is clear. */
  lemma PathRoundTrip(name: seq<byte>, body: Items, off: nat, r: Route)
    requires WellFormed(Node(name, body, Nil)) && SlashFreeNames(body) && Leads(body, r)
    ensures Resolve(Node(name, body, Nil), off, Components([SLASH] + Join(Names(body, r))))
              == Some(NodeOffset(body, off + |NodeHead(name)|, r))
        <==> Clear(body, r)
  {
    RouteNames(body, r);
    ComponentsOfPath(Names(body, r));
    DescendPath(body, off + |NodeHead(name)|, r);
  }

  /** The same on the blob: `fdt_path_offset` on the full path of a node returns its offset
      exactly if the way to it is clear. */
  method FullPathOffset(b: seq<byte>, fdt: nat, path: seq<byte>,
                        ghost name: seq<byte>, ghost body: Items, ghost r: Route)
    returns (offset: int)
    requires InMemory(b, fdt) && Blob(b, Node(name, body, Nil)) && SlashFreeNames(body) && Leads(body, r)
    requires path == [SLASH] + Join(Names(body, r)) && |Names(body, r)| <= 10
    ensures offset == NodeOffset(body, Token(b, 8) + |NodeHead(name)|, r) <==> Clear(body, r)
  {
    hide Blob, Token, NodeHead, Names, Join, Rests, Components, Resolve;
    BlobFacing(b, Node(name, body, Nil));
    RouteNames(body, r);
    NamesTerminated(body, r);
    ComponentsOfPath(Names(body, r));
    PathRoundTrip(name, body, Token(b, 8), r);
    offset := FdtPathOffset(b, fdt, path, Node(name, body, Nil));
  }

  // ----- from a path to a property -----

  ghost function NodeAt(t: Items, r: Route): (n: Items)
    requires Leads(t, r)
    ensures n.Node?
  {
    match r
    case Here => t
    case Past(next) => NodeAt(t.rest, next)
    case Down(next) => NodeAt(t.body, next)
  }

  /** The bytes behind a whole list of items. */
  lemma {:induction false} FacingEnd(b: seq<byte>, off: nat, cur: Items, stack: seq<Items>)
    requires Facing(b, off, cur, stack)
    ensures WellFormed(cur) && Facing(b, off + |Flat(cur)|, Nil, stack)
    decreases cur
  {
    hide Facing, Flat, ItemSize, NodeHead;
    FacingToken(b, off, cur, stack);
    FlatSize(cur);
    match cur
    case Nil =>
    case Prop(_, _, rest) =>
      FacingSkip(b, off, cur, stack);
      FacingEnd(b, off + ItemSize(cur), rest, stack);
    case Nop(rest) =>
      FacingSkip(b, off, cur, stack);
      FacingEnd(b, off + ItemSize(cur), rest, stack);
    case Node(_, _, rest) =>
      FacingPast(b, off, cur, stack);
      FacingEnd(b, off + ItemSize(cur), rest, stack);
  }

  /** The bytes behind a node. */
  lemma {:induction false} FacingPast(b: seq<byte>, off: nat, cur: Items, stack: seq<Items>)
    requires Facing(b, off, cur, stack) && cur.Node?
    ensures WellFormed(cur) && Facing(b, off + ItemSize(cur), cur.rest, stack)
    decreases cur, 0
  {
    hide Facing, Flat, ItemSize, NodeHead;
    FacingToken(b, off, cur, stack);
    FlatSize(cur);
    FacingEnter(b, off, cur, stack);
    FacingEnd(b, off + |NodeHead(cur.name)|, cur.body, [cur.rest] + stack);
    var past := [cur.rest] + stack;
    FacingLeave(b, off + |NodeHead(cur.name)| + |Flat(cur.body)|, Nil, past);
    assert past[0] == cur.rest && past[1..] == stack;
  }

  /** At the offset of a node stands its encoding. */
  lemma {:induction false} FacingRoute(b: seq<byte>, off: nat, cur: Items, stack: seq<Items>, r: Route)
    returns (s: seq<Items>)
    requires Facing(b, off, cur, stack) && Leads(cur, r)
    ensures WellFormed(cur) && Facing(b, NodeOffset(cur, off, r), NodeAt(cur, r), s)
    decreases r
  {
    hide Facing, Flat, ItemSize, NodeHead;
    FacingToken(b, off, cur, stack);
    match r {
      case Here =>
        s := stack;
      case Past(next) =>
        if cur.Node? {
          FacingPast(b, off, cur, stack);
        } else {
          FacingSkip(b, off, cur, stack);
        }
        s := FacingRoute(b, off + ItemSize(cur), cur.rest, stack, next);
      case Down(next) =>
        FacingEnter(b, off, cur, stack);
        s := FacingRoute(b, off + |NodeHead(cur.name)|, cur.body, [cur.rest] + stack, next);
    }
  }

  /** `fdt_path_offset` and then `fdt_getprop`: the property of a node whose way is clear. */
  method PropOfPath(b: seq<byte>, fdt: nat, path: seq<byte>, prop: seq<byte>,
                    ghost name: seq<byte>, ghost body: Items, ghost r: Route)
    returns (found: Option<(nat, nat)>)
    requires InMemory(b, fdt) && Blob(b, Node(name, body, Nil)) && SlashFreeNames(body) && Leads(body, r)
    requires path == [SLASH] + Join(Names(body, r)) && |Names(body, r)| <= 10 && Clear(body, r)
    requires 0 !in prop && Named(b, Token(b, 12), NodeAt(body, r).body) && PropsFirst(NodeAt(body, r).body)
    ensures var node := NodeAt(body, r);
      var at := NodeOffset(body, Token(b, 8) + |NodeHead(name)|, r) + |NodeHead(node.name)|;
      && WellFormed(node.body)
      && var goal := AnyProp(b, Token(b, 12), node.body, at, prop);
      && (found.Some? <==> goal.Some?)
      && (found.Some? ==> found.value.0 == goal.value.0 && found.value.1 == |goal.value.1| &&
                          found.value.0 + found.value.1 <= |b| &&
                          b[found.value.0..found.value.0 + found.value.1] == goal.value.1)
  {
    hide Token, NodeHead, Names, Join, Facing, Flat, PropsFirst, Named, LeadingProp, AnyProp, Clear, InMemory;
    ghost var root := Node(name, body, Nil);
    BlobFacing(b, root);
    BlobHeader(b, root);
    FacingEnter(b, Token(b, 8), root, []);
    ghost var s := FacingRoute(b, Token(b, 8) + |NodeHead(name)|, body, [Nil] + [], r);
    var offset := FullPathOffset(b, fdt, path, name, body, r);
    ghost var node := NodeAt(body, r);
    FacingToken(b, offset, node, s);
    PropsFirstComplete(b, Token(b, 12), node.body, offset + |NodeHead(node.name)|, prop);
    found := FdtGetProp(b, fdt, offset, prop, node, s);
  }

  lemma BlobHeader(b: seq<byte>, t: Items)
    requires Blob(b, t)
    ensures 40 <= |b|
  {
  }

  /** No NUL stands in a full path. */
  lemma NamesTerminated(t: Items, r: Route)
    requires WellFormed(t) && Leads(t, r)
    ensures 0 !in Join(Names(t, r))
    decreases r
  {
    match r
    case Here =>
    case Past(next) => NamesTerminated(t.rest, next);
    case Down(next) =>
      NamesTerminated(t.body, next);
      assert Names(t, r)[1..] == Names(t.body, next);
  }

  /** Siblings `cpu` and `cpus`: the path `/cpus` leads to the first one. */
  lemma ShadowedSibling(off: nat)
    ensures var cpu, cpus := [99, 112, 117], [99, 112, 117, 115];
      var body := Node(cpu, Nil, Node(cpus, Nil, Nil)); var r := Past(Here);
      && WellFormed(body) && Leads(body, r) && Names(body, r) == [cpus] && !Clear(body, r)
      && Resolve(Node([], body, Nil), off, Components([SLASH] + cpus)) == Some(off + |NodeHead([])|)
  {
    hide NodeHead, Flat;
    var cpu, cpus := [99, 112, 117], [99, 112, 117, 115];
    var body := Node(cpu, Nil, Node(cpus, Nil, Nil));
    ComponentsOfPath([cpus]);
    assert cpu <= cpus;
    assert Accepts(cpu, cpus);
    assert Rests([cpus]) == [cpus];
    assert Descend(body, off + |NodeHead([])|, [cpus]) == Some(off + |NodeHead([])|);
  }

  // ----- trees in which every way is clear -----

  /** Is a node with a name in prefix relation to `s` among the items? */
  ghost predicate PrefixRelated(s: seq<byte>, t: Items) {
    match t
    case Nil => false
    case Prop(_, _, rest) => PrefixRelated(s, rest)
    case Nop(rest) => PrefixRelated(s, rest)
    case Node(name, _, rest) => s <= name || name <= s || PrefixRelated(s, rest)
  }

  /** No sibling's name is a prefix of another's. */
  ghost predicate PrefixFree(t: Items) {
    match t
    case Nil => true
    case Prop(_, _, rest) => PrefixFree(rest)
    case Nop(rest) => PrefixFree(rest)
    case Node(name, body, rest) => !PrefixRelated(name, rest) && PrefixFree(body) && PrefixFree(rest)
  }

  lemma {:induction false} NotRelated(s: seq<byte>, t: Items, r: Route)
    requires Leads(t, r) && !PrefixRelated(s, t)
    ensures !Shadows(s, Names(t, r))
    decreases r
  {
    match r
    case Here => NotExtended(s, t.name);
    case Past(next) => NotRelated(s, t.rest, next);
    case Down(next) => NotExtended(s, t.name);
  }

  lemma NotExtended(s: seq<byte>, n: seq<byte>)
    requires !(n <= s)
    ensures !(n + [AT_SIGN] <= s)
  {
  }

  /** With prefix-free sibling names every full path leads to its node. */
  lemma {:induction false} PrefixFreeIsClear(t: Items, r: Route)
    requires Leads(t, r) && PrefixFree(t)
    ensures Clear(t, r)
    decreases r
  {
    match r
    case Here =>
    case Past(next) =>
      PrefixFreeIsClear(t.rest, next);
      if t.Node? { NotRelated(t.name, t.rest, next); }
    case Down(next) => PrefixFreeIsClear(t.body, next);
  }
}

/** The tree of page tables that `pagewalk` builds below the user half of the root, and what
    its two kinds of table writes do to translation. */
module PageTree {
  import opened Bits
  import opened Sv39
  import opened Wrappers

  /** For every table its level, and for every table but the root the entry that points to it. */
  datatype Tree = Tree(level: map<nat, nat>, owner: map<nat, (nat, nat)>)

  /** An entry that points to a lower table: V set and all other low bits clear. */
  predicate TablePointer(e: nat) {
    e % 1024 == 1 && e < TWO_TO_THE_54
  }

  /** Kernel-half root entries are leaves or unused. */
  predicate KernelEntry(e: nat) {
    ValidEntry(e) ==> LeafEntry(e)
  }

  /** The entry `idx` of table `f` is one that `pagewalk` follows or fills on its way down. */
  ghost predicate Inner(root: nat, tr: Tree, f: nat, idx: nat) {
    f in tr.level && tr.level[f] > 0 && idx < (if f == root then 256 else 512)
  }

  ghost predicate Shape(m: Tables, root: nat, tr: Tree) {
    && tr.level.Keys == m.Keys && root in m && tr.level[root] == 2 && root !in tr.owner
    && (forall f :: f in m ==> |m[f]| == 512 && tr.level[f] <= 2 && (tr.level[f] == 2 ==> f == root))
    && (forall f: nat, idx: nat {:trigger m[f][idx]} :: f in m && Inner(root, tr, f, idx) && m[f][idx] % 2 == 1 ==>
          PointsDown(m, tr, f, idx))
    && (forall idx :: 256 <= idx < 512 ==> KernelEntry(m[root][idx]))
  }

  /** The entry holds a pointer to a table one level down, of which it is the owner. */
  ghost predicate PointsDown(m: Tables, tr: Tree, f: nat, idx: nat)
    requires f in m && f in tr.level && idx < |m[f]|
  {
    var e := m[f][idx]; var c := Ppn(e);
    TablePointer(e) && c in tr.level && tr.level[c] + 1 == tr.level[f] && c in tr.owner && tr.owner[c] == (f, idx)
  }

  /** The walk for `va` that starts in table `g` at level `l` passes through table `f`. */
  ghost predicate OnPath(m: Tables, g: nat, va: nat, l: nat, f: nat)
    decreases l
  {
    g in m && |m[g]| == 512 &&
    (g == f ||
     (l > 0 && TablePointer(m[g][Vpn(va, l)]) && OnPath(m, Ppn(m[g][Vpn(va, l)]), va, l - 1, f)))
  }

  lemma PointerBits(e: nat)
    requires TablePointer(e)
    ensures ValidEntry(e) && !LeafEntry(e)
  {
    Powers();
    BitLow(e / 1024, 1, 10, 0);
    BitLow(e / 1024, 1, 10, 1);
    BitLow(e / 1024, 1, 10, 2);
    BitLow(e / 1024, 1, 10, 3);
  }

  // ----- linking a fresh table -----

  ghost function Zeros(): (r: seq<nat>)
    ensures |r| == 512 && forall i :: 0 <= i < 512 ==> r[i] == 0
  {
    seq(512, _ => 0)
  }

  ghost function Pointer(n: nat): nat {
    n * 1024 + 1
  }

  ghost function Link(m: Tables, f: nat, idx: nat, n: nat): Tables
    requires f in m && idx < |m[f]|
  {
    m[n := Zeros()][f := m[f][idx := Pointer(n)]]
  }

  ghost function LinkTree(tr: Tree, f: nat, idx: nat, n: nat): Tree
    requires f in tr.level && tr.level[f] > 0
  {
    Tree(tr.level[n := tr.level[f] - 1], tr.owner[n := (f, idx)])
  }

  /** A free entry on the way down and a frame that is not a table yet. */
  ghost predicate CanLink(m: Tables, root: nat, tr: Tree, f: nat, idx: nat, n: nat) {
    && Shape(m, root, tr) && f in m && Inner(root, tr, f, idx) && m[f][idx] % 2 == 0
    && n !in m && Pointer(n) < TWO_TO_THE_54
  }

  lemma LinkShape(m: Tables, root: nat, tr: Tree, f: nat, idx: nat, n: nat)
    requires CanLink(m, root, tr, f, idx, n)
    ensures Shape(Link(m, f, idx, n), root, LinkTree(tr, f, idx, n))
  {
    var m', tr' := Link(m, f, idx, n), LinkTree(tr, f, idx, n);
    forall g: nat, i: nat {:trigger m'[g][i]} | g in m' && Inner(root, tr', g, i) && m'[g][i] % 2 == 1
      ensures PointsDown(m', tr', g, i)
    {
      if g != n && !(g == f && i == idx) {
        assert m'[g][i] == m[g][i];
        assert PointsDown(m, tr, g, i);
      }
    }
    forall i | 256 <= i < 512 ensures KernelEntry(m'[root][i]) {
      assert m'[root][i] == m[root][i];
    }
  }

  /** Linking an empty table changes no translation: where the walk stopped at the free entry,
      it now stops one level further down. */
  lemma {:induction false} LinkWalk(m: Tables, root: nat, tr: Tree, f: nat, idx: nat, n: nat, g: nat, va: nat, l: nat)
    requires CanLink(m, root, tr, f, idx, n) && g in m && tr.level[g] == l
    ensures Walk(Link(m, f, idx, n), g, va, l) == Walk(m, g, va, l)
    decreases l
  {
    var m' := Link(m, f, idx, n);
    var i := Vpn(va, l);
    var e := m[g][i];
    if g == f && i == idx {
      PointerBits(Pointer(n));
      assert m'[g][i] == Pointer(n) && Ppn(Pointer(n)) == n;
      assert Walk(m', n, va, l - 1) == None by {
        assert m'[n][Vpn(va, l - 1)] == 0;
      }
    } else {
      assert m'[g][i] == e;
      if ValidEntry(e) && !LeafEntry(e) && l > 0 {
        assert Inner(root, tr, g, i);
        assert PointsDown(m, tr, g, i);
        LinkWalk(m, root, tr, f, idx, n, Ppn(e), va, l - 1);
      }
    }
  }

  /** After the link the walk that reached `f` reaches the new table. */
  lemma {:induction false} LinkPath(m: Tables, root: nat, tr: Tree, f: nat, idx: nat, n: nat, g: nat, va: nat, l: nat)
    requires CanLink(m, root, tr, f, idx, n) && g in m && tr.level[g] == l
    requires OnPath(m, g, va, l, f) && Vpn(va, tr.level[f]) == idx
    ensures OnPath(Link(m, f, idx, n), g, va, l, n)
    decreases l
  {
    var m' := Link(m, f, idx, n);
    if g == f {
      assert m'[g][idx] == Pointer(n) && Ppn(Pointer(n)) == n;
      assert OnPath(m', n, va, l - 1, n);
    } else {
      var i := Vpn(va, l);
      assert m'[g][i] == m[g][i];
      LevelBelow(m, root, tr, g, va, l, f);
      LinkPath(m, root, tr, f, idx, n, Ppn(m[g][i]), va, l - 1);
    }
  }

  /** One step down a path from a proper ancestor. */
  lemma LevelBelow(m: Tables, root: nat, tr: Tree, g: nat, va: nat, l: nat, f: nat)
    requires Shape(m, root, tr) && g in m && tr.level[g] == l && OnPath(m, g, va, l, f) && g != f
    ensures l > 0 && TablePointer(m[g][Vpn(va, l)])
    ensures var c := Ppn(m[g][Vpn(va, l)]);
      && c in m && tr.level[c] == l - 1 && OnPath(m, c, va, l - 1, f)
      && c in tr.owner && tr.owner[c] == (g, Vpn(va, l))
  {
    PointerBits(m[g][Vpn(va, l)]);
    assert Inner(root, tr, g, Vpn(va, l));
    assert PointsDown(m, tr, g, Vpn(va, l));
  }

  /** A path can be followed one pointer further. */
  lemma {:induction false} PathStep(m: Tables, root: nat, tr: Tree, g: nat, va: nat, l: nat, f: nat)
    requires Shape(m, root, tr) && g in m && tr.level[g] == l && OnPath(m, g, va, l, f)
    requires f in m && Inner(root, tr, f, Vpn(va, tr.level[f])) && m[f][Vpn(va, tr.level[f])] % 2 == 1
    ensures var c := Ppn(m[f][Vpn(va, tr.level[f])]);
      c in m && c in tr.level && tr.level[c] == tr.level[f] - 1 && OnPath(m, g, va, l, c)
    decreases l
  {
    if g == f {
      assert PointsDown(m, tr, f, Vpn(va, l));
      assert OnPath(m, Ppn(m[f][Vpn(va, l)]), va, l - 1, Ppn(m[f][Vpn(va, l)]));
    } else {
      LevelBelow(m, root, tr, g, va, l, f);
      PathStep(m, root, tr, Ppn(m[g][Vpn(va, l)]), va, l - 1, f);
    }
  }

  // ----- writing a leaf entry -----

  ghost function Store(m: Tables, f: nat, idx: nat, e: nat): Tables
    requires f in m && idx < |m[f]|
  {
    var row: seq<nat> := m[f][idx := e];
    m[f := row]
  }

  lemma StoreShape(m: Tables, root: nat, tr: Tree, f: nat, idx: nat, e: nat)
    requires Shape(m, root, tr) && f in m && tr.level[f] == 0 && idx < 512
    ensures Shape(Store(m, f, idx, e), root, tr)
  {
  }

  /** A walk that does not read the written entry is unchanged. */
  lemma {:induction false} StoreOther(m: Tables, root: nat, tr: Tree, f: nat, idx: nat, e: nat, g: nat, va: nat, l: nat)
    requires Shape(m, root, tr) && f in m && tr.level[f] == 0 && idx < 512 && g in m && tr.level[g] == l
    requires OnPath(m, g, va, l, f) ==> Vpn(va, 0) != idx
    ensures Walk(Store(m, f, idx, e), g, va, l) == Walk(m, g, va, l)
    decreases l
  {
  }

  /** A walk that reads the written entry ends in it. */
  lemma {:induction false} StoreHit(m: Tables, root: nat, tr: Tree, f: nat, idx: nat, e: nat, g: nat, va: nat, l: nat)
    requires Shape(m, root, tr) && f in m && tr.level[f] == 0 && idx < 512 && g in m && tr.level[g] == l
    requires OnPath(m, g, va, l, f) && Vpn(va, 0) == idx
    ensures Walk(Store(m, f, idx, e), g, va, l) ==
              if ValidEntry(e) && LeafEntry(e) then LeafMapping(e, va, 0) else None
    decreases l
  {
    if g != f {
      LevelBelow(m, root, tr, g, va, l, f);
      PointerBits(m[g][Vpn(va, l)]);
      StoreHit(m, root, tr, f, idx, e, Ppn(m[g][Vpn(va, l)]), va, l - 1);
    }
  }

  /** Two walks from the same table that reach the same bottom table took the same entries. */
  lemma {:induction false} PathUnique(m: Tables, root: nat, tr: Tree, g: nat, v: nat, w: nat, l: nat, f: nat)
    requires Shape(m, root, tr) && f in m && tr.level[f] == 0 && g in m && tr.level[g] == l
    requires OnPath(m, g, v, l, f) && OnPath(m, g, w, l, f)
    ensures forall k: nat :: 0 < k <= l ==> Vpn(v, k) == Vpn(w, k)
    decreases l
  {
    if g != f {
      LevelBelow(m, root, tr, g, v, l, f);
      LevelBelow(m, root, tr, g, w, l, f);
      var c, d := Ppn(m[g][Vpn(v, l)]), Ppn(m[g][Vpn(w, l)]);
      SameAncestor(m, root, tr, c, d, v, w, l - 1, f);
      PathUnique(m, root, tr, c, v, w, l - 1, f);
    }
  }

  /** At each level only one table leads to `f`. */
  lemma {:induction false} SameAncestor(m: Tables, root: nat, tr: Tree, c: nat, d: nat, v: nat, w: nat, l: nat, f: nat)
    requires Shape(m, root, tr) && f in m && tr.level[f] == 0
    requires c in m && d in m && tr.level[c] == l == tr.level[d]
    requires OnPath(m, c, v, l, f) && OnPath(m, d, w, l, f)
    ensures c == d
    decreases l
  {
    if l > 0 {
      LevelBelow(m, root, tr, c, v, l, f);
      LevelBelow(m, root, tr, d, w, l, f);
      SameAncestor(m, root, tr, Ppn(m[c][Vpn(v, l)]), Ppn(m[d][Vpn(w, l)]), v, w, l - 1, f);
    }
  }

  // ----- the effect on the translation of every address -----

  lemma LinkTranslate(m: Tables, root: nat, tr: Tree, f: nat, idx: nat, n: nat, va: nat)
    requires CanLink(m, root, tr, f, idx, n)
    ensures Translate(Link(m, f, idx, n), root, va) == Translate(m, root, va)
  {
    if CanonicalAddress(va) { LinkWalk(m, root, tr, f, idx, n, root, va, 2); }
  }

  /** Writing entry `e` at the end of the walk for `va` redirects exactly the page of `va`. */
  lemma StoreTranslate(m: Tables, root: nat, tr: Tree, f: nat, va: nat, e: nat, v: nat)
    requires Shape(m, root, tr) && f in m && tr.level[f] == 0
    requires va < VA_HALF && OnPath(m, root, va, 2, f)
    ensures Translate(Store(m, f, Vpn(va, 0), e), root, v) ==
              if v < VA_HALF && v / 4096 == va / 4096 then
                (if ValidEntry(e) && LeafEntry(e) then LeafMapping(e, v, 0) else None)
              else Translate(m, root, v)
  {
    if v < VA_HALF && v / 4096 == va / 4096 {
      SamePagePath(m, root, va, v, 2, f);
      StoreHit(m, root, tr, f, Vpn(va, 0), e, root, v, 2);
    } else if CanonicalAddress(v) {
      if OnPath(m, root, v, 2, f) && Vpn(v, 0) == Vpn(va, 0) {
        PathUnique(m, root, tr, root, va, v, 2, f);
        RootHalves(va);
        RootHalves(v);
        VpnsDeterminePage(v, va);
      }
      StoreOther(m, root, tr, f, Vpn(va, 0), e, root, v, 2);
    }
  }

  lemma {:induction false} SamePagePath(m: Tables, g: nat, va: nat, v: nat, l: nat, f: nat)
    requires OnPath(m, g, va, l, f) && v / 4096 == va / 4096
    ensures OnPath(m, g, v, l, f)
    decreases l
  {
    if g != f { SamePagePath(m, Ppn(m[g][Vpn(va, l)]), va, v, l - 1, f); }
  }

  // ----- how far down the tables of a walk exist -----

  ghost function Entry(m: Tables, f: nat, i: nat): nat {
    if f in m && i < |m[f]| then m[f][i] else 0
  }

  /** Number of tables below the root that the walk for `va` finds in place. */
  ghost function Depth(m: Tables, root: nat, va: nat): (d: nat)
    ensures d <= 2
  {
    var e := Entry(m, root, Vpn(va, 2));
    if e % 2 == 0 then 0 else if Entry(m, Ppn(e), Vpn(va, 1)) % 2 == 0 then 1 else 2
  }

  /** The tables of `va` exist down to depth `d` at least, and nothing else has been added. */
  ghost predicate Deepened(m: Tables, m': Tables, root: nat, va: nat, d: nat) {
    forall v: nat :: v < VA_HALF ==> Depth(m', root, v) == Max(Depth(m, root, v), Min(Shared(va, v), d))
  }

  /** A walk that has reached level `l` finds the next table exactly if the depth says so. */
  lemma DepthAtLevel(m: Tables, root: nat, tr: Tree, va: nat, f: nat)
    requires Shape(m, root, tr) && f in m && va < VA_HALF && OnPath(m, root, va, 2, f) && tr.level[f] > 0
    ensures m[f][Vpn(va, tr.level[f])] % 2 == 1 <==> Depth(m, root, va) >= 3 - tr.level[f]
    ensures Depth(m, root, va) >= 2 - tr.level[f]
  {
    if f != root { LevelBelow(m, root, tr, root, va, 2, f); }
  }

  /** The middle table that an entry of the user half leads to. */
  lemma RootChild(m: Tables, root: nat, tr: Tree, v: nat)
    requires Shape(m, root, tr) && v < VA_HALF
    ensures root in m && |m[root]| == 512
    ensures var e := m[root][Vpn(v, 2)]; e % 2 == 1 ==>
      var c := Ppn(e);
      && c in m && |m[c]| == 512 && c in tr.level && tr.level[c] == 1 && c != root
      && c in tr.owner && tr.owner[c] == (root, Vpn(v, 2))
  {
    RootHalves(v);
    var e := m[root][Vpn(v, 2)];
    if e % 2 == 1 { assert PointsDown(m, tr, root, Vpn(v, 2)); }
  }

  /** A link below the root lies on the way of exactly the addresses that share its entry. */
  lemma LinkDepth(m: Tables, root: nat, tr: Tree, f: nat, n: nat, va: nat, v: nat)
    requires f in tr.level && CanLink(m, root, tr, f, Vpn(va, tr.level[f]), n) && OnPath(m, root, va, 2, f)
    requires va < VA_HALF && v < VA_HALF
    ensures Depth(Link(m, f, Vpn(va, tr.level[f]), n), root, v)
         == Max(Depth(m, root, v), Min(Shared(va, v), 3 - tr.level[f]))
  {
    hide Vpn, Shared, Depth, Link, SameSlot, OnPath, Shape;
    SlotsAreIndices(va, v);
    RootChild(m, root, tr, v);
    RootChild(m, root, tr, va);
    BelowRoot(m, root, tr, f);
    if f == root {
      RootLinkDepth(m, root, n, va, v);
    } else {
      MiddleTable(m, root, tr, va, f);
      InnerLinkDepth(m, root, f, n, va, v);
    }
  }

  lemma MiddleTable(m: Tables, root: nat, tr: Tree, va: nat, f: nat)
    requires Shape(m, root, tr) && f in m && tr.level[f] == 1 && OnPath(m, root, va, 2, f)
    ensures root in m && |m[root]| == 512 && m[root][Vpn(va, 2)] % 2 == 1 && Ppn(m[root][Vpn(va, 2)]) == f
  {
    hide Vpn, Inner;
    LevelBelow(m, root, tr, root, va, 2, f);
    var c := Ppn(m[root][Vpn(va, 2)]);
    if c != f { LevelBelow(m, root, tr, c, va, 1, f); }
  }

  lemma BelowRoot(m: Tables, root: nat, tr: Tree, f: nat)
    requires Shape(m, root, tr) && f in m
    ensures |m[f]| == 512 && f in tr.level && root in tr.level && tr.level[root] == 2
    ensures f != root ==> tr.level[f] <= 1
  {
  }

  lemma RootLinkDepth(m: Tables, root: nat, n: nat, va: nat, v: nat)
    requires root in m && |m[root]| == 512 && n !in m && m[root][Vpn(va, 2)] % 2 == 0
    requires m[root][Vpn(v, 2)] % 2 == 1 ==> Ppn(m[root][Vpn(v, 2)]) in m && Ppn(m[root][Vpn(v, 2)]) != root
    requires SameSlot(va, v, 2) <==> Vpn(va, 2) == Vpn(v, 2)
    requires SameSlot(va, v, 1) ==> SameSlot(va, v, 2)
    ensures Depth(Link(m, root, Vpn(va, 2), n), root, v) == Max(Depth(m, root, v), Min(Shared(va, v), 1))
  {
    hide Vpn, SameSlot;
    assert Ppn(Pointer(n)) == n;
  }

  lemma InnerLinkDepth(m: Tables, root: nat, f: nat, n: nat, va: nat, v: nat)
    requires root in m && |m[root]| == 512 && f in m && |m[f]| == 512 && f != root && n !in m
    requires m[root][Vpn(va, 2)] % 2 == 1 && Ppn(m[root][Vpn(va, 2)]) == f && m[f][Vpn(va, 1)] % 2 == 0
    requires m[root][Vpn(v, 2)] % 2 == 1 ==>
               Ppn(m[root][Vpn(v, 2)]) in m && (Ppn(m[root][Vpn(v, 2)]) == f ==> Vpn(v, 2) == Vpn(va, 2))
    requires SameSlot(va, v, 2) <==> Vpn(va, 2) == Vpn(v, 2)
    requires SameSlot(va, v, 1) <==> Vpn(va, 2) == Vpn(v, 2) && Vpn(va, 1) == Vpn(v, 1)
    ensures Depth(Link(m, f, Vpn(va, 1), n), root, v) == Max(Depth(m, root, v), Min(Shared(va, v), 2))
  {
    hide Vpn, SameSlot;
  }

  lemma FollowDepth(m: Tables, root: nat, va: nat, v: nat, d: nat)
    requires va < VA_HALF && v < VA_HALF && d <= Depth(m, root, va)
    ensures Depth(m, root, v) == Max(Depth(m, root, v), Min(Shared(va, v), d))
  {
    SlotsAreIndices(va, v);
  }

  lemma StoreDepth(m: Tables, root: nat, tr: Tree, f: nat, idx: nat, e: nat, v: nat)
    requires Shape(m, root, tr) && f in m && tr.level[f] == 0 && idx < 512 && v < VA_HALF
    ensures Depth(Store(m, f, idx, e), root, v) == Depth(m, root, v)
  {
    RootChild(m, root, tr, v);
  }
}

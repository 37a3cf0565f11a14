/** The cases of unlinking a chunk that is a node of its trie. */
module TreeUnlink {
  import opened MallocUnits
  import opened TreeIndex
  import opened TrieBits
  import opened Trie
  import opened Rings
  import opened TreeBins

  lemma NodeFacts(m: Chunks, bins: seq<Addr>, marked: set<nat>, depth: Depths, rings: RingMap, x: Addr)
    requires BinsOk(m, bins, marked, depth, rings) && x in depth
    ensures x in m && x != 0 && Large(m[x].size) && m[x].index == Index(m[x].size) < |bins|
            && depth[x] <= Width(m[x].index)
    ensures m[x].parent != Chained
    ensures m[x].parent.AtBin? ==> m[x].parent.i == m[x].index && bins[m[x].index] == x
    ensures m[x].parent.Under? ==> m[x].parent.p in depth && m[x].parent.p in m && bins[m[x].index] != x
    ensures m[x].parent.Under? ==> (m[m[x].parent.p].child0 == x || m[m[x].parent.p].child1 == x)
  {
    hide Large, Index, Width, SamePath, RingInv, HeadsOk, TreeInv, Bit;
    NodeAt(m, bins, depth, x);
    HasRoot(m, bins, depth, x);
    RootParent(m, bins, depth, m[x].index);
  }

  lemma RootParent(m: Chunks, bins: seq<Addr>, depth: Depths, i: nat)
    requires TreeInv(m, bins, depth) && i < |bins| && bins[i] != 0
    ensures bins[i] in m && m[bins[i]].parent == AtBin(i)
  {
  }

  /** A node whose ring goes on: the one before it in the ring takes its place. */
  lemma UnlinkLeading(m: Chunks, bins: seq<Addr>, marked: set<nat>, depth: Depths, rings: RingMap, x: Addr)
      returns (depth': Depths, rings': RingMap)
    requires x in m && x in depth && m[x].bk != x
    requires BinsOk(m, bins, marked, depth, rings)
    ensures m[x].fd in m && m[x].bk in m && x in Unchain(m, x) && m[x].bk in Unchain(m, x)
    ensures CanReplace(Unchain(m, x), bins, depth, x, m[x].bk) && IsLeaf(Unchain(m, x)[m[x].bk])
    ensures Replaced(Unchain(m, x), x, m[x].bk).Keys == m.Keys
    ensures BinsOk(Replaced(Unchain(m, x), x, m[x].bk) - {x}, RelinkBin(Unchain(m, x), bins, x, m[x].bk), marked,
            depth', rings')
  {
    var k := PlaceInRing(m, bins, marked, depth, rings, x);
    var s, r := m[x].size, m[x].bk;
    rings' := rings[s := Without(rings[s], 0)];
    RemoveFromRing(m, rings, x, s, 0);
    UnchainFrame(m, bins, depth, x);
    UnchainKeys(m, x);
    UnchainAt(m, x, x);
    UnchainAt(m, x, r);
    var m1 := Unchain(m, x);
    depth' := DepthsAfter(depth, x, r);
    LeadingHeir(m, bins, marked, depth, rings, x);
    UnlinkLeadingHeads(m, depth, rings, x);
    hide BinsOk, TreeInv, RingInv, Unchain, HeirsOk, Replaced;
    TakePlace(m1, bins, marked, depth, x, r, rings');
  }

  lemma LeadingHeir(m: Chunks, bins: seq<Addr>, marked: set<nat>, depth: Depths, rings: RingMap, x: Addr)
    requires x in m && x in depth && m[x].bk != x
    requires BinsOk(m, bins, marked, depth, rings)
    ensures m[x].fd in m && m[x].bk in m
    ensures CanReplace(Unchain(m, x), bins, depth, x, m[x].bk) && IsLeaf(Unchain(m, x)[m[x].bk])
  {
    hide Large, Index, Width, Prefix, TreeInv, RingInv, HeadsOk, MapOk, Unchain;
    var k := PlaceInRing(m, bins, marked, depth, rings, x);
    var r := m[x].bk;
    NodeFacts(m, bins, marked, depth, rings, x);
    RingNotNode(m, depth, rings, m[x].size, r);
    UnchainFrame(m, bins, depth, x);
    UnchainAt(m, x, x);
    UnchainAt(m, x, r);
    ReflexivePath(m[x].size, Width(m[x].index), depth[x]);
  }

  lemma RingNotNode(m: Chunks, depth: Depths, rings: RingMap, s: nat, r: Addr)
    requires HeadsOk(m, depth, rings) && RingInv(m, rings) && s in rings && |rings[s]| > 1
    requires r == rings[s][|rings[s]| - 1] && r in m && m[r].size == s
    ensures r !in depth && r != 0 && Large(s) && m[r].index == Index(s) && IsLeaf(m[r])
    ensures forall c :: c in depth ==> c in m
  {
    hide Large, Index;
    assert RingOk(m, s, rings[s]);
    assert Linked(m, s, rings[s], |rings[s]| - 1);
    assert HeadOk(m, depth, rings, r);
  }

  lemma UnlinkLeadingHeads(m: Chunks, depth: Depths, rings: RingMap, x: Addr)
    requires x in m && x in depth && m[x].fd in m && m[x].bk in m
    requires HeadsOk(m, depth, rings) && RingInv(m, rings)
    requires m[x].size in rings && |rings[m[x].size]| > 1 && m[m[x].bk].size == m[x].size
             && m[x].bk == rings[m[x].size][|rings[m[x].size]| - 1]
    ensures HeirsOk(Unchain(m, x), depth, rings[m[x].size := Without(rings[m[x].size], 0)], x, m[x].bk)
  {
    hide Large, Index, Unchain, RingInv, SameNode;
    var m1, s, r := Unchain(m, x), m[x].size, m[x].bk;
    var rings' := rings[s := Without(rings[s], 0)];
    UnchainKeys(m, x);
    assert HeadOk(m, depth, rings, x);
    assert Without(rings[s], 0)[0] == r;
    RingNotNode(m, depth, rings, s, r);
    forall a | a in m1 && a != x ensures HeirOk(m1, depth, rings', r, a) {
      UnchainAt(m, x, a);
      assert HeadOk(m, depth, rings, a);
    }
  }

  /** A node alone in its ring, with children: a leaf `r` below it, cut off from its parent
      `p`, takes its place. */
  lemma UnlinkInner(m: Chunks, bins: seq<Addr>, marked: set<nat>, depth: Depths, rings: RingMap, x: Addr, p: Addr,
      b: nat, r: Addr)
      returns (depth': Depths, rings': RingMap)
    requires x in m && x in depth && m[x].bk == x && r in m && r in depth && r != x && r != 0 && IsLeaf(m[r])
    requires p in m && p in depth && b < 2 && Child(m[p], b) == r
    requires BinsOk(m, bins, marked, depth, rings)
    requires m[r].index == m[x].index && SamePath(m[x].size, m[r].size, Width(m[x].index), depth[x])
    ensures var m1 := m[p := WithChild(m[p], b, 0)];
            && CanReplace(m1, bins, depth - {r}, x, r)
            && Replaced(m1, x, r).Keys == m.Keys
            && BinsOk(Replaced(m1, x, r) - {x}, RelinkBin(m1, bins, x, r), marked, depth', rings')
  {
    hide Large, Index, Width, SamePath, TreeInv, RingInv, HeirsOk, HeadsOk, Replaced, RingOk, RelinkBin, DepthsAfter;
    var m1 := m[p := WithChild(m[p], b, 0)];
    var k := PlaceInRing(m, bins, marked, depth, rings, x);
    assert rings[m[x].size] == [x];
    DetachLeaf(m, bins, depth, p, b, r);
    RingFrame(m, m1, rings);
    DropRing(m1, rings, x);
    NodeFacts(m, bins, marked, depth, rings, x);
    NodeFacts(m, bins, marked, depth, rings, r);
    rings' := rings - {m[x].size};
    depth' := DepthsAfter(depth - {r}, x, r);
    RingsCover(m, rings);
    InnerHeads(m, depth, rings, x, p, b, r);
    TakePlace(m1, bins, marked, depth - {r}, x, r, rings');
  }

  lemma InnerHeads(m: Chunks, depth: Depths, rings: RingMap, x: Addr, p: Addr, b: nat, r: Addr)
    requires HeadsOk(m, depth, rings) && x in m && r in m && r in depth && p in m && p in depth
    requires m[x].size in rings && rings[m[x].size] == [x] && (forall a :: a in m ==> InRing(m, rings, a))
    ensures HeirsOk(m[p := WithChild(m[p], b, 0)], depth - {r}, rings - {m[x].size}, x, r)
  {
    hide Large, Index;
    var m1 := m[p := WithChild(m[p], b, 0)];
    forall a | a in m1 && a != x ensures HeirOk(m1, depth - {r}, rings - {m[x].size}, r, a) {
      assert HeadOk(m, depth, rings, a) && InRing(m, rings, a);
    }
  }

  /** A node alone in its ring and without children just leaves. */
  lemma UnlinkLast(m: Chunks, bins: seq<Addr>, marked: set<nat>, depth: Depths, rings: RingMap, x: Addr)
      returns (depth': Depths, rings': RingMap)
    requires x in m && x in depth && m[x].bk == x && IsLeaf(m[x])
    requires BinsOk(m, bins, marked, depth, rings)
    ensures Relink(m, x, 0).Keys == m.Keys
    ensures BinsOk(Relink(m, x, 0) - {x}, RelinkBin(m, bins, x, 0),
                   if m[x].parent.AtBin? then marked - {m[x].index} else marked, depth', rings')
  {
    hide Large, Index, Width, TreeInv, RingInv, Relink;
    var k := PlaceInRing(m, bins, marked, depth, rings, x);
    assert rings[m[x].size] == [x];
    NodeFacts(m, bins, marked, depth, rings, x);
    var m1 := Relink(m, x, 0);
    rings' := rings - {m[x].size};
    depth' := depth - {x};
    RelinkedLinks(m, x);
    RingFrame(m, m1, rings);
    DropRing(m1, rings, x);
    LastTree(m, bins, depth, x);
    Smaller(m1, RelinkBin(m, bins, x, 0), depth', x);
    RingsCover(m, rings);
    LastHeads(m, depth, rings, x);
    hide HeadsOk;
  }

  lemma RingsCover(m: Chunks, rings: RingMap)
    requires RingInv(m, rings)
    ensures forall a :: a in m ==> InRing(m, rings, a)
  {
  }

  lemma RelinkedLinks(m: Chunks, x: Addr)
    requires x in m
    ensures Relink(m, x, 0).Keys == m.Keys
    ensures forall a :: a in m ==> SameLinks(m[a], Relink(m, x, 0)[a])
  {
  }

  lemma LastTree(m: Chunks, bins: seq<Addr>, depth: Depths, x: Addr)
    requires TreeInv(m, bins, depth) && x in depth && x in m && IsLeaf(m[x])
    ensures TreeInv(Relink(m, x, 0), RelinkBin(m, bins, x, 0), depth - {x})
  {
    NodeAt(m, bins, depth, x);
    hide Large, Index, Width, SamePath, TreeInv, Bit;
    match m[x].parent
    case AtBin(i) =>
      DetachRoot(m, bins, depth, x);
    case Under(p) =>
      NodeAt(m, bins, depth, p);
      var b := if m[p].child0 == x then 0 else 1;
      assert Child(m[p], b) == x;
      DetachLeaf(m, bins, depth, p, b, x);
  }

  lemma LastHeads(m: Chunks, depth: Depths, rings: RingMap, x: Addr)
    requires HeadsOk(m, depth, rings) && x in m && m[x].size in rings && rings[m[x].size] == [x]
    requires (forall a :: a in m ==> InRing(m, rings, a)) && (m[x].parent.Under? ==> m[x].parent.p in depth)
    ensures HeadsOk(Relink(m, x, 0) - {x}, depth - {x}, rings - {m[x].size})
  {
    hide Large, Index;
    var m' := Relink(m, x, 0) - {x};
    forall a | a in m' ensures HeadOk(m', depth - {x}, rings - {m[x].size}, a) {
      assert HeadOk(m, depth, rings, a) && InRing(m, rings, a);
    }
  }

  /** The neighbours of a node that is to be replaced are all different. */
  lemma Neighbourhood(m: Chunks, bins: seq<Addr>, depth: Depths, x: Addr, r: Addr)
    requires CanReplace(m, bins, depth, x, r)
    ensures x != r && m[x].index < |bins| && m[x].parent != Chained
    ensures m[x].child0 != 0 ==> m[x].child0 in m && m[x].child0 != r && m[x].child0 != x
    ensures m[x].child1 != 0 ==> m[x].child1 in m && m[x].child1 != r && m[x].child1 != x
    ensures m[x].child0 != 0 ==> m[x].child0 != m[x].child1
    ensures m[x].parent.AtBin? ==> m[x].parent.i == m[x].index && bins[m[x].index] == x
    ensures m[x].parent.Under? ==>
      var p := m[x].parent.p;
          p in m && p != x && p != r && p != m[x].child0 && p != m[x].child1 && bins[m[x].index] != x
  {
    hide Large, Index, Width, SamePath, TreeInv, Bit;
    NodeAt(m, bins, depth, x);
    HasRoot(m, bins, depth, x);
    RootParent(m, bins, depth, m[x].index);
    assert KidOk(m, depth, x, 0) && KidOk(m, depth, x, 1);
    if m[x].parent.Under? {
      NodeAt(m, bins, depth, m[x].parent.p);
    }
  }

  /** The way down from `x` to the leaf that takes its place. */
  ghost predicate Descending(m: Chunks, depth: Depths, x: Addr, p: Addr, b: nat, r: Addr) {
    && x in m && x in depth && p in m && p in depth && r in m && r in depth && b < 2 && r != 0
    && Child(m[p], b) == r && depth[r] > depth[x] && m[r].index == m[x].index && depth[r] <= Width(m[x].index)
    && SamePath(m[x].size, m[r].size, Width(m[x].index), depth[x])
  }

  lemma DescendStart(m: Chunks, bins: seq<Addr>, depth: Depths, x: Addr, b: nat)
    requires TreeInv(m, bins, depth) && x in depth && x in m && b < 2 && Child(m[x], b) != 0
    ensures Descending(m, depth, x, x, b, Child(m[x], b))
  {
    hide Large, Index, Width, SamePath, TreeInv, Bit;
    KidPath(m, bins, depth, x, b);
    NodeAt(m, bins, depth, Child(m[x], b));
  }

  lemma DescendStep(m: Chunks, bins: seq<Addr>, depth: Depths, x: Addr, p: Addr, b: nat, r: Addr, c: nat)
    requires TreeInv(m, bins, depth) && Descending(m, depth, x, p, b, r) && c < 2 && Child(m[r], c) != 0
    ensures Descending(m, depth, x, r, c, Child(m[r], c)) && depth[Child(m[r], c)] == depth[r] + 1
  {
    hide Large, Index, Width, TreeInv, Bit;
    var k := Child(m[r], c);
    KidPath(m, bins, depth, r, c);
    NodeAt(m, bins, depth, k);
    PathUp(m[r].size, m[k].size, Width(m[x].index), depth[x], depth[r]);
    PathJoin(m[x].size, m[r].size, m[k].size, Width(m[x].index), depth[x]);
  }
}

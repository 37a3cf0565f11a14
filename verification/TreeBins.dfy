/** Inserting chunks into the tree bins and unlinking them. */
module TreeBins {
  import opened MallocUnits
  import opened TreeIndex
  import opened TrieBits
  import opened Trie
  import opened Rings

  // ----- the invariant of all bins -----

  /** The first of each ring is a node of its trie; the others have neither parent nor children. */
  predicate HeadOk(m: Chunks, depth: Depths, rings: RingMap, a: Addr)
    requires a in m
  {
    && Large(m[a].size) && m[a].index == Index(m[a].size)
    && m[a].size in rings && rings[m[a].size] != []
    && (a in depth <==> a == rings[m[a].size][0])
    && (a !in depth ==> m[a].parent == Chained && IsLeaf(m[a]))
  }

  ghost predicate HeadsOk(m: Chunks, depth: Depths, rings: RingMap) {
    && (forall a :: a in m ==> HeadOk(m, depth, rings, a))
    && forall a :: a in depth ==> a in m
  }

  /** The map of bins marks exactly those that are not empty. */
  ghost predicate MapOk(bins: seq<Addr>, marked: set<nat>) {
    forall i: nat :: i in marked <==> i < |bins| && bins[i] != 0
  }

  ghost predicate BinsOk(m: Chunks, bins: seq<Addr>, marked: set<nat>, depth: Depths, rings: RingMap) {
    TreeInv(m, bins, depth) && RingInv(m, rings) && HeadsOk(m, depth, rings) && MapOk(bins, marked)
  }

  /** The chunks in the bins and their sizes. */
  function Sizes(m: Chunks): map<Addr, nat> {
    map a | a in m :: m[a].size
  }

  /** A size has a ring exactly if some node has it. */
  lemma RingHead(m: Chunks, bins: seq<Addr>, marked: set<nat>, depth: Depths, rings: RingMap, s: nat)
    requires BinsOk(m, bins, marked, depth, rings) && s in rings
    ensures rings[s] != [] && rings[s][0] in depth && rings[s][0] in m && m[rings[s][0]].size == s
  {
    hide Large, Index, TreeInv, MapOk;
    assert RingOk(m, s, rings[s]);
    assert Linked(m, s, rings[s], 0);
    assert HeadOk(m, depth, rings, rings[s][0]);
  }

  // ----- the search for a size -----

  /** The search for `s` has come to the node `t`: all nodes of this size are at or below it. */
  ghost predicate Sought(m: Chunks, depth: Depths, t: Addr, s: nat) {
    && t in depth && t in m && m[t].index == Index(s) && SamePath(m[t].size, s, Width(Index(s)), depth[t])
    && forall a :: a in depth && a in m && m[a].size == s ==> depth[t] <= depth[a]
  }

  lemma SearchStart(m: Chunks, bins: seq<Addr>, marked: set<nat>, depth: Depths, rings: RingMap, s: nat)
    requires BinsOk(m, bins, marked, depth, rings) && Large(s)
    ensures Index(s) < |bins|
    ensures if bins[Index(s)] == 0 then s !in rings
            else Sought(m, depth, bins[Index(s)], s) && depth[bins[Index(s)]] == 0
  {
    IndexBound(s);
    hide Large, Index, Width, Prefix, Bit;
    var t := bins[Index(s)];
    if t == 0 {
      if s in rings {
        RingHead(m, bins, marked, depth, rings, s);
        NodeAt(m, bins, depth, rings[s][0]);
        HasRoot(m, bins, depth, rings[s][0]);
      }
    } else {
      NodeAt(m, bins, depth, t);
      RootPath(m[t].size, s);
    }
  }

  /** Where the search goes on from a node of another size. */
  lemma SearchStep(m: Chunks, bins: seq<Addr>, marked: set<nat>, depth: Depths, rings: RingMap, t: Addr, s: nat)
    requires BinsOk(m, bins, marked, depth, rings) && Large(s) && Sought(m, depth, t, s) && m[t].size != s
    ensures depth[t] < Width(Index(s)) <= 64
    ensures var c := Child(m[t], Bit(s, Width(Index(s)), depth[t]));
            if c == 0 then s !in rings else Sought(m, depth, c, s) && depth[c] == depth[t] + 1
  {
    IndexBound(s);
    PathEnd(m[t].size, s, Width(Index(s)), depth[t]);
    hide Large, Index, Prefix, Bit, SamePath, TreeInv, RingInv, HeadsOk, MapOk;
    var b := Bit(s, Width(Index(s)), depth[t]);
    if s in rings {
      RingHead(m, bins, marked, depth, rings, s);
      SoughtBelow(m, bins, depth, t, s, rings[s][0]);
    }
    if Child(m[t], b) != 0 {
      SoughtKid(m, bins, depth, t, s);
    }
  }

  lemma SoughtKid(m: Chunks, bins: seq<Addr>, depth: Depths, t: Addr, s: nat)
    requires TreeInv(m, bins, depth) && Sought(m, depth, t, s) && m[t].size != s && depth[t] < Width(Index(s))
    requires Child(m[t], Bit(s, Width(Index(s)), depth[t])) != 0
    ensures var c := Child(m[t], Bit(s, Width(Index(s)), depth[t])); Sought(m, depth, c, s) && depth[c] == depth[t] + 1
  {
    hide Large, Index, Prefix, Bit, SamePath, TreeInv, Width;
    var b := Bit(s, Width(Index(s)), depth[t]);
    var c := Child(m[t], b);
    KidPath(m, bins, depth, t, b);
    ThroughKid(m[t].size, m[c].size, s, Width(Index(s)), depth[t]);
    forall a | a in depth && a in m && m[a].size == s ensures depth[c] <= depth[a] {
      SoughtBelow(m, bins, depth, t, s, a);
    }
  }

  /** A node of the sought size is properly below `t`, on the side its bit says. */
  lemma SoughtBelow(m: Chunks, bins: seq<Addr>, depth: Depths, t: Addr, s: nat, a: Addr)
    requires TreeInv(m, bins, depth) && Sought(m, depth, t, s) && m[t].size != s && a in depth && a in m
             && m[a].size == s
    ensures depth[t] < depth[a] && Child(m[t], Bit(s, Width(Index(s)), depth[t])) != 0
  {
    hide Large, Index, Width, Prefix, Bit;
    NodeAt(m, bins, depth, a);
    if depth[t] == depth[a] {
      Unique(m, bins, depth, t, a);
    } else {
      var _ := Below(m, bins, depth, t, a);
    }
  }

  /** A child continues the path of its parent. */
  lemma KidPath(m: Chunks, bins: seq<Addr>, depth: Depths, t: Addr, b: nat)
    requires TreeInv(m, bins, depth) && t in depth && t in m && b < 2 && Child(m[t], b) != 0
    ensures var k := Child(m[t], b);
            && k in depth && k in m && depth[k] == depth[t] + 1 && m[k].index == m[t].index && m[k].parent == Under(t)
            && SamePath(m[t].size, m[k].size, Width(m[t].index), depth[t])
            && Bit(m[k].size, Width(m[t].index), depth[t]) == b
  {
    hide Large, Index, Width, Prefix, Bit;
    NodeAt(m, bins, depth, t);
    assert KidOk(m, depth, t, b);
    NodeAt(m, bins, depth, Child(m[t], b));
  }

  lemma ThroughKid(t: nat, c: nat, s: nat, w: nat, d: nat)
    requires d < w && SamePath(t, s, w, d) && SamePath(t, c, w, d) && Bit(c, w, d) == Bit(s, w, d)
    ensures SamePath(c, s, w, d + 1)
  {
    hide Bit;
    PathStep(c, s, w, d);
  }

  // ----- inserting -----

  lemma InsertRoot(m: Chunks, bins: seq<Addr>, marked: set<nat>, depth: Depths, rings: RingMap, x: Addr, s: nat)
    requires BinsOk(m, bins, marked, depth, rings) && x !in m && x != 0 && Large(s)
    requires Index(s) < |bins| && bins[Index(s)] == 0
    ensures BinsOk(m[x := Leaf(s, x, AtBin(Index(s)))], bins[Index(s) := x], marked + {Index(s)}, depth[x := 0],
            rings[s := [x]])
  {
    SearchStart(m, bins, marked, depth, rings, s);
    AddRoot(m, bins, depth, x, s);
    NewRing(m, rings, x, Leaf(s, x, AtBin(Index(s))));
    hide Large, Index, TreeInv, RingInv;
    var m' := m[x := Leaf(s, x, AtBin(Index(s)))];
    forall a | a in m' ensures HeadOk(m', depth[x := 0], rings[s := [x]], a) {
      if a != x {
        assert HeadOk(m, depth, rings, a);
      }
    }
  }

  lemma InsertLeaf(m: Chunks, bins: seq<Addr>, marked: set<nat>, depth: Depths, rings: RingMap, t: Addr, x: Addr,
      s: nat)
    requires t in depth && t in m && x !in m && x != 0 && m[t].size != s
    requires Large(s) && Child(m[t], Bit(s, Width(Index(s)), depth[t])) == 0
    requires BinsOk(m, bins, marked, depth, rings) && Sought(m, depth, t, s)
    ensures BinsOk(LeafAdded(m, t, Bit(s, Width(Index(s)), depth[t]), x, s), bins, marked, depth[x := depth[t] + 1],
            rings[s := [x]])
  {
    hide Large, Index, TreeInv, Bit, Width, SamePath, RingInv, Child, SameNode;
    SearchStep(m, bins, marked, depth, rings, t, s);
    AddLeaf(m, bins, depth, t, x, s);
    var b := Bit(s, Width(Index(s)), depth[t]);
    var m1 := m[t := WithChild(m[t], b, x)];
    RingFrame(m, m1, rings);
    NewRing(m1, rings, x, Leaf(s, x, Under(t)));
    var m', depth' := LeafAdded(m, t, b, x, s), depth[x := depth[t] + 1];
    forall a | a in m' ensures HeadOk(m', depth', rings[s := [x]], a) {
      if a != x {
        assert HeadOk(m, depth, rings, a);
      }
    }
  }

  /** Only links change, apart from the new chunk. */
  lemma ChainInAt(m: Chunks, t: Addr, x: Addr, s: nat, a: Addr)
    requires t in m && m[t].fd in m && a in m && a != x
    ensures a in ChainIn(m, t, x, s) && SameNode(m[a], ChainIn(m, t, x, s)[a])
  {
  }

  lemma InsertChained(m: Chunks, bins: seq<Addr>, marked: set<nat>, depth: Depths, rings: RingMap, t: Addr, x: Addr,
      s: nat)
    requires x !in m && x != 0 && Large(s) && t in depth && t in m && m[t].size == s
    requires BinsOk(m, bins, marked, depth, rings)
    ensures s in rings && rings[s] != [] && rings[s][0] == t && m[t].fd in m
    ensures BinsOk(ChainIn(m, t, x, s), bins, marked, depth, rings[s := [t, x] + rings[s][1..]])
  {
    hide Large, Index, TreeInv, RingOk, InRing;
    assert HeadOk(m, depth, rings, t);
    InsertInRing(m, rings, x, s);
    var m', rings' := ChainIn(m, t, x, s), rings[s := [t, x] + rings[s][1..]];
    assert x in m' && m'[x] == TChunk(s, m[t].fd, t, 0, 0, Chained, Index(s));
    hide ChainIn, RingInv;
    forall a | a in m' ensures HeadOk(m', depth, rings', a) {
      if a != x {
        ChainInAt(m, t, x, s, a);
        assert HeadOk(m, depth, rings, a);
      }
    }
    forall a | a in depth ensures a in m && a in m' && SameNode(m[a], m'[a]) {
      ChainInAt(m, t, x, s, a);
    }
    Frame(m, m', bins, depth);
  }

  // ----- unlinking -----

  /** Where a chunk is in its ring. */
  lemma PlaceInRing(m: Chunks, bins: seq<Addr>, marked: set<nat>, depth: Depths, rings: RingMap, x: Addr)
      returns (k: nat)
    requires BinsOk(m, bins, marked, depth, rings) && x in m
    ensures m[x].size in rings && k < |rings[m[x].size]| && rings[m[x].size][k] == x
    ensures m[x].fd in m && m[x].bk in m && m[m[x].bk].size == m[x].size
    ensures m[x].bk == rings[m[x].size][Before(k, |rings[m[x].size]|)]
    ensures m[x].bk == x <==> |rings[m[x].size]| == 1
    ensures x in depth <==> k == 0
    ensures x in depth <==> m[x].parent != Chained
  {
    hide Large, Index, TreeInv, MapOk;
    assert InRing(m, rings, x) && HeadOk(m, depth, rings, x);
    var r := rings[m[x].size];
    k :| 0 <= k < |r| && r[k] == x;
    RingMember(m, rings, m[x].size, k);
    assert RingOk(m, m[x].size, r);
    if x in depth {
      ParentThere(m, bins, depth, x);
    }
  }

  lemma ParentThere(m: Chunks, bins: seq<Addr>, depth: Depths, x: Addr)
    requires TreeInv(m, bins, depth) && x in depth
    ensures x in m && m[x].parent != Chained
  {
    NodeAt(m, bins, depth, x);
  }

  lemma UnchainAt(m: Chunks, x: Addr, a: Addr)
    requires x in m && m[x].fd in m && m[x].bk in m && a in m
    ensures a in Unchain(m, x) && SameNode(m[a], Unchain(m, x)[a])
  {
  }

  lemma UnchainFrame(m: Chunks, bins: seq<Addr>, depth: Depths, x: Addr)
    requires TreeInv(m, bins, depth) && x in m && m[x].fd in m && m[x].bk in m
    requires forall a :: a in depth ==> a in m
    ensures TreeInv(Unchain(m, x), bins, depth)
  {
    hide TreeInv, Unchain;
    forall a | a in depth ensures a in Unchain(m, x) && SameNode(m[a], Unchain(m, x)[a]) {
      UnchainAt(m, x, a);
    }
    Frame(m, Unchain(m, x), bins, depth);
  }

  /** A chunk that is no node leaves its ring. */
  lemma UnlinkChained(m: Chunks, bins: seq<Addr>, marked: set<nat>, depth: Depths, rings: RingMap, x: Addr)
      returns (rings': RingMap)
    requires x in m && m[x].parent == Chained
    requires BinsOk(m, bins, marked, depth, rings)
    ensures m[x].fd in m && m[x].bk in m && m[x].bk != x
    ensures BinsOk(Unchain(m, x) - {x}, bins, marked, depth, rings')
  {
    var k := PlaceInRing(m, bins, marked, depth, rings, x);
    var s := m[x].size;
    rings' := rings[s := Without(rings[s], k)];
    RemoveFromRing(m, rings, x, s, k);
    UnchainFrame(m, bins, depth, x);
    hide TreeInv, RingInv, Unchain, RingOk;
    UnlinkChainedHeads(m, depth, rings, x, k);
    Smaller(Unchain(m, x), bins, depth, x);
  }

  lemma UnlinkChainedHeads(m: Chunks, depth: Depths, rings: RingMap, x: Addr, k: nat)
    requires HeadsOk(m, depth, rings) && x in m && x !in depth
    requires m[x].size in rings && 0 < k < |rings[m[x].size]| && m[x].fd in m && m[x].bk in m
    ensures HeadsOk(Unchain(m, x) - {x}, depth, rings[m[x].size := Without(rings[m[x].size], k)])
  {
    hide Large, Index, Unchain;
    var m', rings' := Unchain(m, x) - {x}, rings[m[x].size := Without(rings[m[x].size], k)];
    UnchainKeys(m, x);
    forall a | a in m' ensures HeadOk(m', depth, rings', a) {
      UnchainAt(m, x, a);
      assert HeadOk(m, depth, rings, a);
    }
  }

  lemma UnchainKeys(m: Chunks, x: Addr)
    requires x in m && m[x].fd in m && m[x].bk in m
    ensures Unchain(m, x).Keys == m.Keys
  {
  }

  /** `Replaced` does not touch links, and other than nodes only the new one. */
  lemma ReplacedFrame(m: Chunks, bins: seq<Addr>, depth: Depths, x: Addr, r: Addr, a: Addr)
    requires Around(m, bins, depth, x, r) && a in m && a != x
    requires forall c :: c in depth ==> c in m
    ensures a in Replaced(m, x, r) && SameLinks(m[a], Replaced(m, x, r)[a])
    ensures m[a].index == Replaced(m, x, r)[a].index
    ensures a !in depth && a != r ==> Replaced(m, x, r)[a] == m[a]
  {
    hide Prefix, Bit, Large, Width, Index, SamePath, Replaced;
    ReplacedAt(m, bins, depth, x, r, a);
    assert KidOk(m, depth, x, 0) && KidOk(m, depth, x, 1);
  }

  /** `HeadOk`, with `r` counted as a node and `x` as gone. */
  predicate HeirOk(m: Chunks, depth: Depths, rings: RingMap, r: Addr, a: Addr)
    requires a in m
  {
    && Large(m[a].size) && m[a].index == Index(m[a].size)
    && m[a].size in rings && rings[m[a].size] != []
    && (a in depth || a == r <==> a == rings[m[a].size][0])
    && (a !in depth && a != r ==> m[a].parent == Chained && IsLeaf(m[a]))
  }

  ghost predicate HeirsOk(m: Chunks, depth: Depths, rings: RingMap, x: Addr, r: Addr) {
    && (forall a :: a in m && a != x ==> HeirOk(m, depth, rings, r, a))
    && forall c :: c in depth ==> c in m
  }

  lemma TakePlaceHeads(m: Chunks, bins: seq<Addr>, depth: Depths, x: Addr, r: Addr, rings: RingMap)
    requires Around(m, bins, depth, x, r) && HeirsOk(m, depth, rings, x, r)
    ensures HeadsOk(Replaced(m, x, r) - {x}, DepthsAfter(depth, x, r), rings)
  {
    ReplacedKeys(m, x, r);
    NodesKept(m, bins, depth, x, r);
    var m', depth' := Replaced(m, x, r) - {x}, DepthsAfter(depth, x, r);
    assert x in m && r in m && x in depth;
    hide Replaced, Around, DepthsAfter, HeadOk, HeirOk;
    forall a | a in m' ensures HeadOk(m', depth', rings, a) {
      assert HeirOk(m, depth, rings, r, a);
      TakePlaceHead(m, bins, depth, x, r, rings, a);
    }
  }

  lemma NodesKept(m: Chunks, bins: seq<Addr>, depth: Depths, x: Addr, r: Addr)
    requires Around(m, bins, depth, x, r) && forall c :: c in depth ==> c in m
    ensures forall c :: c in DepthsAfter(depth, x, r) ==> c in Replaced(m, x, r) - {x}
  {
    ReplacedKeys(m, x, r);
    hide Large, Index, Width, SamePath, Replaced, NodeOk;
  }

  lemma TakePlaceLinks(m: Chunks, bins: seq<Addr>, depth: Depths, x: Addr, r: Addr)
    requires Around(m, bins, depth, x, r) && forall c :: c in depth ==> c in m
    ensures forall a :: a in m && a != x ==> a in Replaced(m, x, r) && SameLinks(m[a], Replaced(m, x, r)[a])
  {
    assert x in m && r in m;
    hide Replaced, Around, SameLinks;
    forall a | a in m && a != x ensures a in Replaced(m, x, r) && SameLinks(m[a], Replaced(m, x, r)[a]) {
      ReplacedFrame(m, bins, depth, x, r, a);
    }
  }

  lemma TakePlaceHead(m: Chunks, bins: seq<Addr>, depth: Depths, x: Addr, r: Addr, rings: RingMap, a: Addr)
    requires Around(m, bins, depth, x, r) && (forall c :: c in depth ==> c in m)
    requires a in m && a != x && HeirOk(m, depth, rings, r, a)
    ensures a in Replaced(m, x, r) - {x} && SameLinks(m[a], Replaced(m, x, r)[a])
    ensures HeadOk(Replaced(m, x, r) - {x}, DepthsAfter(depth, x, r), rings, a)
  {
    ReplacedFrame(m, bins, depth, x, r, a);
    hide Large, Index, Width, SamePath, Replaced, Around, NodeOk;
  }

  /** `r` takes the place of the node `x`, which leaves the bins. The rest of the ring of `x`,
      if there is one, is led by `r`. */
  lemma TakePlace(m: Chunks, bins: seq<Addr>, marked: set<nat>, depth: Depths, x: Addr, r: Addr, rings: RingMap)
    requires CanReplace(m, bins, depth, x, r) && MapOk(bins, marked)
    requires RingInv(m - {x}, rings) && HeirsOk(m, depth, rings, x, r)
    ensures Replaced(m, x, r).Keys == m.Keys
    ensures BinsOk(Replaced(m, x, r) - {x}, RelinkBin(m, bins, x, r), marked, DepthsAfter(depth, x, r), rings)
  {
    var m1 := Replaced(m, x, r);
    var m', bins', depth' := m1 - {x}, RelinkBin(m, bins, x, r), DepthsAfter(depth, x, r);
    Replace(m, bins, depth, x, r);
    ReplacedKeys(m, x, r);
    FindAround(m, bins, depth, x, r);
    RelinkedMap(m, bins, marked, depth, x, r);
    TakePlaceLinks(m, bins, depth, x, r);
    hide TreeInv, RingInv, MapOk, CanReplace, Around, Replaced, RelinkBin, HeirsOk, HeadsOk;
    TakePlaceHeads(m, bins, depth, x, r, rings);
    RingFrame(m - {x}, m', rings);
    Smaller(m1, bins', depth', x);
  }

  lemma RelinkedMap(m: Chunks, bins: seq<Addr>, marked: set<nat>, depth: Depths, x: Addr, r: Addr)
    requires Around(m, bins, depth, x, r) && MapOk(bins, marked)
    ensures MapOk(RelinkBin(m, bins, x, r), marked)
  {
    hide Large, Index, Width, SamePath, Prefix, Bit;
  }

  /** A chunk that is no node does not matter to the tries. */
  lemma Smaller(m: Chunks, bins: seq<Addr>, depth: Depths, x: Addr)
    requires TreeInv(m, bins, depth) && x !in depth
    ensures TreeInv(m - {x}, bins, depth)
  {
    forall a | a in depth ensures a in m {
      NodeAt(m, bins, depth, a);
    }
    hide TreeInv;
    Frame(m, m - {x}, bins, depth);
  }

  lemma ReplacedKeys(m: Chunks, x: Addr, r: Addr)
    requires x in m && r in m
    ensures Replaced(m, x, r).Keys == m.Keys
  {
  }
}

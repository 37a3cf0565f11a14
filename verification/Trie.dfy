/**
 The tree bins: bitwise tries of free chunks, one trie for each bin. Chunks of equal size
 form a ring, and one chunk of the ring is the node of the trie.

 The chunks are a map from addresses to the fields the allocator keeps in a free chunk.
 `depth` is not stored by the allocator: it gives the nodes of the tries and their depths.
 */
module Trie {
  import opened MallocUnits
  import opened TreeIndex
  import opened TrieBits

  /** The parent field: null in a chained chunk, the bin itself in a root. */
  datatype Parent = Chained | AtBin(i: nat) | Under(p: Addr)

  datatype TChunk = TChunk(size: nat, fd: Addr, bk: Addr, child0: Addr, child1: Addr, parent: Parent, index: nat)

  type Chunks = map<Addr, TChunk>

  type Depths = map<Addr, nat>

  function Child(c: TChunk, b: nat): Addr {
    if b == 0 then c.child0 else c.child1
  }

  function WithChild(c: TChunk, b: nat, k: Addr): TChunk {
    if b == 0 then c.(child0 := k) else c.(child1 := k)
  }

  // ----- the order of a trie -----

  predicate SamePath(s: nat, t: nat, w: nat, d: nat) {
    d <= w && Prefix(s, w, d) == Prefix(t, w, d)
  }

  /** A root hangs in its bin; any other node is the child of its parent that its size says. */
  predicate ParentOk(m: Chunks, bins: seq<Addr>, depth: Depths, a: Addr)
    requires a in m && a in depth
  {
    var c := m[a];
    match c.parent
    case Chained => false
    case AtBin(i) => i == c.index && i < |bins| && bins[i] == a && depth[a] == 0
    case Under(p) =>
      && p in depth && p in m && depth[a] == depth[p] + 1 && m[p].index == c.index
      && SamePath(m[p].size, c.size, Width(c.index), depth[p])
      && Child(m[p], Bit(c.size, Width(c.index), depth[p])) == a
  }

  predicate KidOk(m: Chunks, depth: Depths, a: Addr, b: nat)
    requires a in m && a in depth
  {
    var k := Child(m[a], b);
    k != 0 ==> k in depth && k in m && m[k].parent == Under(a) && Bit(m[k].size, Width(m[a].index), depth[a]) == b
  }

  predicate NodeOk(m: Chunks, bins: seq<Addr>, depth: Depths, a: Addr)
    requires a in depth
  {
    && a in m && a != 0
    && Large(m[a].size) && m[a].index == Index(m[a].size) && depth[a] <= Width(m[a].index)
    && ParentOk(m, bins, depth, a) && KidOk(m, depth, a, 0) && KidOk(m, depth, a, 1)
  }

  ghost predicate TreeInv(m: Chunks, bins: seq<Addr>, depth: Depths) {
    && |bins| == NTREEBINS
    && (forall a :: a in depth ==> NodeOk(m, bins, depth, a))
    && (forall i :: 0 <= i < |bins| && bins[i] != 0 ==>
      bins[i] in depth && bins[i] in m && m[bins[i]].parent == AtBin(i))
  }

  lemma NodeAt(m: Chunks, bins: seq<Addr>, depth: Depths, a: Addr)
    requires TreeInv(m, bins, depth) && a in depth
    ensures NodeOk(m, bins, depth, a)
  {
  }

  // ----- paths -----

  /** Equal prefixes one step further mean equal prefixes and equal bits. */
  lemma PathStep(s: nat, t: nat, w: nat, d: nat)
    requires d < w
    ensures SamePath(s, t, w, d + 1) <==> SamePath(s, t, w, d) && Bit(s, w, d) == Bit(t, w, d)
  {
    PrefixStep(s, w, d);
    PrefixStep(t, w, d);
  }

  lemma PathUp(s: nat, t: nat, w: nat, d: nat, e: nat)
    requires d <= e && SamePath(s, t, w, e)
    ensures SamePath(s, t, w, d)
  {
    PrefixEqual(s, t, w, d, e);
  }

  lemma PathJoin(s: nat, t: nat, u: nat, w: nat, d: nat)
    requires SamePath(s, t, w, d) && SamePath(t, u, w, d)
    ensures SamePath(s, u, w, d)
  {
  }

  lemma RootPath(s: nat, t: nat)
    requires Large(s) && Large(t) && Index(s) == Index(t)
    ensures SamePath(s, t, Width(Index(s)), 0)
  {
    SameBin(s, t);
  }

  /** At the last bit a path says the whole size. */
  lemma PathEnd(s: nat, t: nat, w: nat, d: nat)
    requires SamePath(s, t, w, d) && s != t
    ensures d < w
  {
    PrefixAll(s, w);
    PrefixAll(t, w);
  }

  /** The node above `a` at depth `k`. */
  lemma {:induction false} Ancestor(m: Chunks, bins: seq<Addr>, depth: Depths, a: Addr, k: nat) returns (p: Addr)
    requires TreeInv(m, bins, depth) && a in depth && k <= depth[a]
    ensures p in depth && p in m && depth[p] == k && m[p].index == m[a].index
    ensures SamePath(m[p].size, m[a].size, Width(m[a].index), k)
    decreases depth[a]
  {
    hide Prefix, Bit, Large, Width, Index;
    assert NodeOk(m, bins, depth, a);
    if k == depth[a] {
      p := a;
      ReflexivePath(m[a].size, Width(m[a].index), k);
    } else {
      var q := m[a].parent.p;
      p := Ancestor(m, bins, depth, q, k);
      PathUp(m[q].size, m[a].size, Width(m[a].index), k, depth[q]);
    }
  }

  lemma ReflexivePath(s: nat, w: nat, d: nat)
    requires d <= w
    ensures SamePath(s, s, w, d)
  {
  }

  /** A node is determined by its bin, its depth and its path. */
  lemma {:induction false} Unique(m: Chunks, bins: seq<Addr>, depth: Depths, a: Addr, b: Addr)
    requires TreeInv(m, bins, depth) && a in depth && b in depth
    requires a in m && b in m && m[a].index == m[b].index && depth[a] == depth[b]
    requires SamePath(m[a].size, m[b].size, Width(m[a].index), depth[a])
    ensures a == b
    decreases depth[a]
  {
    hide Prefix, Bit, Large, Width, Index, KidOk, SamePath;
    NodeAt(m, bins, depth, a);
    NodeAt(m, bins, depth, b);
    if depth[a] > 0 {
      var p, q := m[a].parent.p, m[b].parent.p;
      ParentPaths(m[a].size, m[b].size, m[p].size, m[q].size, Width(m[a].index), depth[p]);
      Unique(m, bins, depth, p, q);
    }
  }

  /** The paths of two parents agree if those of the nodes do. */
  lemma ParentPaths(s: nat, t: nat, u: nat, v: nat, w: nat, d: nat)
    requires SamePath(s, t, w, d + 1) && SamePath(u, s, w, d) && SamePath(v, t, w, d)
    ensures SamePath(u, v, w, d) && Bit(s, w, d) == Bit(t, w, d)
  {
    hide Prefix, Bit;
    PathStep(s, t, w, d);
  }

  /** A node below `t` is reached through the child that its size says. */
  lemma Below(m: Chunks, bins: seq<Addr>, depth: Depths, t: Addr, a: Addr) returns (c: Addr)
    requires TreeInv(m, bins, depth) && t in depth && a in depth && t in m && a in m
    requires m[t].index == m[a].index && depth[t] < depth[a]
    requires SamePath(m[t].size, m[a].size, Width(m[t].index), depth[t])
    ensures c == Child(m[t], Bit(m[a].size, Width(m[t].index), depth[t])) != 0
    ensures c in depth && c in m && depth[c] == depth[t] + 1 <= depth[a] && m[c].index == m[t].index
    ensures SamePath(m[c].size, m[a].size, Width(m[t].index), depth[c])
  {
    hide Prefix, Bit, Large, Width, Index, KidOk, SamePath;
    var w := Width(m[t].index);
    var d := depth[t];
    c := Ancestor(m, bins, depth, a, d + 1);
    NodeAt(m, bins, depth, c);
    var q := m[c].parent.p;
    NodeAt(m, bins, depth, q);
    hide TreeInv;
    AncestorPaths(m[c].size, m[a].size, m[q].size, m[t].size, w, d);
    Unique(m, bins, depth, q, t);
  }

  lemma AncestorPaths(c: nat, a: nat, q: nat, t: nat, w: nat, d: nat)
    requires SamePath(c, a, w, d + 1) && SamePath(q, c, w, d) && SamePath(t, a, w, d)
    ensures SamePath(q, t, w, d) && Bit(c, w, d) == Bit(a, w, d)
  {
    hide Prefix, Bit;
    PathStep(c, a, w, d);
  }

  /** A bin that has a node has a root. */
  lemma HasRoot(m: Chunks, bins: seq<Addr>, depth: Depths, a: Addr)
    requires TreeInv(m, bins, depth) && a in depth
    ensures a in m && m[a].index < |bins| && bins[m[a].index] != 0
  {
    hide Prefix, Bit, Large, Width, Index;
    assert NodeOk(m, bins, depth, a);
    var r := Ancestor(m, bins, depth, a, 0);
    assert NodeOk(m, bins, depth, r);
  }

  // ----- changing a trie -----

  /** What the trie depends on. */
  predicate SameNode(c: TChunk, c': TChunk) {
    && c.size == c'.size && c.index == c'.index && c.parent == c'.parent
    && c.child0 == c'.child0 && c.child1 == c'.child1
  }

  /** Links within rings, and chunks that are no nodes, do not matter to the tries. */
  lemma Frame(m: Chunks, m': Chunks, bins: seq<Addr>, depth: Depths)
    requires TreeInv(m, bins, depth)
    requires forall a :: a in depth ==> a in m && a in m' && SameNode(m[a], m'[a])
    ensures TreeInv(m', bins, depth)
  {
    hide Prefix, Bit, Large, Width, Index;
    forall a | a in depth ensures NodeOk(m', bins, depth, a) {
      assert NodeOk(m, bins, depth, a);
    }
  }

  function Leaf(size: nat, x: Addr, parent: Parent): TChunk {
    TChunk(size, x, x, 0, 0, parent, Index(size))
  }

  lemma AddRoot(m: Chunks, bins: seq<Addr>, depth: Depths, x: Addr, s: nat)
    requires TreeInv(m, bins, depth) && x !in m && x != 0 && Large(s) && Index(s) < NTREEBINS && bins[Index(s)] == 0
    ensures TreeInv(m[x := Leaf(s, x, AtBin(Index(s)))], bins[Index(s) := x], depth[x := 0])
  {
    hide Prefix, Bit, Large, Width, Index, SamePath;
    var m', bins', depth' := m[x := Leaf(s, x, AtBin(Index(s)))], bins[Index(s) := x], depth[x := 0];
    forall a | a in depth' ensures NodeOk(m', bins', depth', a) {
      if a != x {
        NodeAt(m, bins, depth, a);
        HasRoot(m, bins, depth, a);
        BesideNewRoot(m, bins, depth, x, s, a);
      }
    }
  }

  lemma BesideNewRoot(m: Chunks, bins: seq<Addr>, depth: Depths, x: Addr, s: nat, a: Addr)
    requires x !in m && x != 0 && a in depth && NodeOk(m, bins, depth, a)
    requires Index(s) < |bins| && bins[Index(s)] == 0
    ensures NodeOk(m[x := Leaf(s, x, AtBin(Index(s)))], bins[Index(s) := x], depth[x := 0], a)
  {
    hide Prefix, Bit, Large, Width, Index, SamePath;
  }

  function LeafAdded(m: Chunks, t: Addr, b: nat, x: Addr, s: nat): Chunks
    requires t in m
  {
    m[t := WithChild(m[t], b, x)][x := Leaf(s, x, Under(t))]
  }

  lemma LeafAddedAt(m: Chunks, t: Addr, b: nat, x: Addr, s: nat, a: Addr)
    requires t in m && x !in m && a in m
    ensures a in LeafAdded(m, t, b, x, s) && LeafAdded(m, t, b, x, s)[a].parent == m[a].parent
  {
  }

  /** `x` becomes the child of `t` that its size says. */
  lemma AddLeaf(m: Chunks, bins: seq<Addr>, depth: Depths, t: Addr, x: Addr, s: nat)
    requires TreeInv(m, bins, depth) && t in depth && t in m && x !in m && x != 0 && Large(s)
    requires m[t].index == Index(s) && m[t].size != s
    requires SamePath(m[t].size, s, Width(Index(s)), depth[t])
    requires Child(m[t], Bit(s, Width(Index(s)), depth[t])) == 0
    ensures TreeInv(LeafAdded(m, t, Bit(s, Width(Index(s)), depth[t]), x, s), bins, depth[x := depth[t] + 1])
  {
    PathEnd(m[t].size, s, Width(Index(s)), depth[t]);
    NodeAt(m, bins, depth, t);
    hide Prefix, Bit, Large, Width, Index, NodeOk, SamePath, ParentOk, KidOk, LeafAdded, Child;
    var b := Bit(s, Width(Index(s)), depth[t]);
    var m', depth' := LeafAdded(m, t, b, x, s), depth[x := depth[t] + 1];
    forall a | a in depth' ensures NodeOk(m', bins, depth', a) {
      if a == x {
        NewLeaf(m, bins, depth, t, x, s);
      } else {
        NodeAt(m, bins, depth, a);
        BesideLeaf(m, bins, depth, t, x, s, a);
      }
    }
    forall i | 0 <= i < |bins| && bins[i] != 0 ensures bins[i] in depth' && bins[i] in m'
        && m'[bins[i]].parent == AtBin(i) {
      LeafAddedAt(m, t, b, x, s, bins[i]);
    }
  }

  lemma NewLeaf(m: Chunks, bins: seq<Addr>, depth: Depths, t: Addr, x: Addr, s: nat)
    requires t in depth && t in m && x !in m && x != 0 && Large(s)
    requires m[t].index == Index(s) && depth[t] < Width(Index(s))
    requires SamePath(m[t].size, s, Width(Index(s)), depth[t])
    ensures NodeOk(LeafAdded(m, t, Bit(s, Width(Index(s)), depth[t]), x, s), bins, depth[x := depth[t] + 1], x)
  {
    hide Prefix, Bit, Large, Width, Index;
  }

  lemma BesideLeaf(m: Chunks, bins: seq<Addr>, depth: Depths, t: Addr, x: Addr, s: nat, a: Addr)
    requires t in depth && t in m && x !in m && x != 0 && Large(s) && a in depth
    requires NodeOk(m, bins, depth, a) && NodeOk(m, bins, depth, t) && m[t].index == Index(s)
    requires Child(m[t], Bit(s, Width(Index(s)), depth[t])) == 0
    ensures NodeOk(LeafAdded(m, t, Bit(s, Width(Index(s)), depth[t]), x, s), bins, depth[x := depth[t] + 1], a)
  {
    hide Prefix, Bit, Large, Width, Index, SamePath;
    assert KidOk(m, depth, a, 0) && KidOk(m, depth, a, 1);
  }

  predicate IsLeaf(c: TChunk) {
    c.child0 == 0 && c.child1 == 0
  }

  /** A leaf is cut off from its parent. */
  lemma DetachLeaf(m: Chunks, bins: seq<Addr>, depth: Depths, p: Addr, b: nat, r: Addr)
    requires TreeInv(m, bins, depth) && r in depth && r in m && p in m && p in depth && IsLeaf(m[r])
    requires b < 2 && r != 0 && Child(m[p], b) == r
    ensures p != r && TreeInv(m[p := WithChild(m[p], b, 0)], bins, depth - {r})
  {
    hide Prefix, Bit, Large, Width, Index, NodeOk, SamePath;
    var m', depth' := m[p := WithChild(m[p], b, 0)], depth - {r};
    NodeAt(m, bins, depth, p);
    NodeAt(m, bins, depth, r);
    SlotOwner(m, bins, depth, p, b, r);
    forall a | a in depth' ensures NodeOk(m', bins, depth', a) {
      NodeAt(m, bins, depth, a);
      BesideDetached(m, bins, depth, p, b, r, a);
    }
    assert forall i :: 0 <= i < |bins| && bins[i] != 0 ==> bins[i] in depth' && m'[bins[i]].parent == AtBin(i);
  }

  lemma SlotOwner(m: Chunks, bins: seq<Addr>, depth: Depths, p: Addr, b: nat, r: Addr)
    requires p in depth && r in depth && NodeOk(m, bins, depth, p) && NodeOk(m, bins, depth, r)
    requires b < 2 && r != 0 && Child(m[p], b) == r
    ensures p != r && m[r].parent == Under(p) && Bit(m[r].size, Width(m[p].index), depth[p]) == b
  {
    hide Prefix, Bit, Large, Width, Index, SamePath;
    assert KidOk(m, depth, p, b);
  }

  lemma BesideDetached(m: Chunks, bins: seq<Addr>, depth: Depths, p: Addr, b: nat, r: Addr, a: Addr)
    requires p in depth && r in depth && a in depth && a != r && p != r && b < 2
    requires NodeOk(m, bins, depth, p) && NodeOk(m, bins, depth, r) && NodeOk(m, bins, depth, a)
    requires IsLeaf(m[r]) && m[r].parent == Under(p) && Child(m[p], b) == r
    requires Bit(m[r].size, Width(m[p].index), depth[p]) == b
    ensures NodeOk(m[p := WithChild(m[p], b, 0)], bins, depth - {r}, a)
  {
    hide Prefix, Bit, Large, Width, Index, SamePath;
    assert KidOk(m, depth, a, 0) && KidOk(m, depth, a, 1);
  }

  lemma BesideRoot(m: Chunks, bins: seq<Addr>, depth: Depths, x: Addr, a: Addr)
    requires x in depth && a in depth && a != x && NodeOk(m, bins, depth, a) && NodeOk(m, bins, depth, x)
             && IsLeaf(m[x])
    requires m[x].index < |bins| && bins[m[x].index] == x && m[x].parent == AtBin(m[x].index)
    ensures NodeOk(m, bins[m[x].index := 0], depth - {x}, a)
  {
    hide Prefix, Bit, Large, Width, Index, SamePath;
  }

  lemma DetachRoot(m: Chunks, bins: seq<Addr>, depth: Depths, x: Addr)
    requires TreeInv(m, bins, depth) && x in depth && x in m && IsLeaf(m[x])
    requires m[x].index < |bins| && bins[m[x].index] == x
    ensures TreeInv(m, bins[m[x].index := 0], depth - {x})
  {
    hide Prefix, Bit, Large, Width, Index, SamePath, NodeOk;
    var bins', depth' := bins[m[x].index := 0], depth - {x};
    NodeAt(m, bins, depth, x);
    forall a | a in depth' ensures NodeOk(m, bins', depth', a) {
      NodeAt(m, bins, depth, a);
      BesideRoot(m, bins, depth, x, a);
    }
    forall i | 0 <= i < |bins'| && bins'[i] != 0 ensures bins'[i] in depth' {
      assert i != m[x].index;
    }
  }

  // ----- putting one chunk in the place of another -----

  /** The slot that points to `x` points to `r` instead. */
  function Relink(m: Chunks, x: Addr, r: Addr): Chunks
    requires x in m
  {
    match m[x].parent
    case Under(p) =>
      if p in m then m[p := WithChild(m[p], if m[p].child0 == x then 0 else 1, r)] else m
    case _ => m
  }

  function RelinkBin(m: Chunks, bins: seq<Addr>, x: Addr, r: Addr): (b: seq<Addr>)
    requires x in m
    ensures |b| == |bins|
  {
    match m[x].parent
    case AtBin(i) => if i < |bins| then bins[i := r] else bins
    case _ => bins
  }

  function Adopt(m: Chunks, k: Addr, r: Addr): Chunks {
    if k != 0 && k in m then m[k := m[k].(parent := Under(r))] else m
  }

  /** `r` takes the place of the node `x`. */
  function Replaced(m: Chunks, x: Addr, r: Addr): Chunks
    requires x in m && r in m
  {
    var c := m[x];
    var m1 := Relink(m, x, r);
    var m2 := m1[r := m1[r].(parent := c.parent, child0 := c.child0, child1 := c.child1)];
    Adopt(Adopt(m2, c.child0, r), c.child1, r)
  }

  /** What putting `r` in the place of `x` relies on. */
  ghost predicate CanReplace(m: Chunks, bins: seq<Addr>, depth: Depths, x: Addr, r: Addr) {
    && TreeInv(m, bins, depth) && x in depth && x in m && r in m && r !in depth && r != 0
    && Large(m[r].size) && m[r].index == Index(m[r].size) == m[x].index
    && SamePath(m[x].size, m[r].size, Width(m[x].index), depth[x])
  }

  function DepthsAfter(depth: Depths, x: Addr, r: Addr): Depths
    requires x in depth
  {
    (depth - {x})[r := depth[x]]
  }

  /** `x` with its neighbours in the trie, `r` outside. */
  predicate Around(m: Chunks, bins: seq<Addr>, depth: Depths, x: Addr, r: Addr) {
    && x in depth && x in m && r in m && r !in depth && r != 0
    && Large(m[r].size) && m[r].index == Index(m[r].size) == m[x].index
    && NodeOk(m, bins, depth, x)
    && SamePath(m[x].size, m[r].size, Width(m[x].index), depth[x])
    && (m[x].parent.Under? ==>
          var p := m[x].parent.p;
          && p in depth && NodeOk(m, bins, depth, p)
          && SamePath(m[x].size, m[r].size, Width(m[x].index), depth[p])
          && Bit(m[x].size, Width(m[x].index), depth[p]) == Bit(m[r].size, Width(m[x].index), depth[p]))
  }

  lemma FindAround(m: Chunks, bins: seq<Addr>, depth: Depths, x: Addr, r: Addr)
    requires CanReplace(m, bins, depth, x, r)
    ensures Around(m, bins, depth, x, r)
  {
    hide Prefix, Bit, Large, Width, Index;
    NodeAt(m, bins, depth, x);
    PathEndDepth(m, bins, depth, x);
    if m[x].parent.Under? {
      var p := m[x].parent.p;
      NodeAt(m, bins, depth, p);
      hide TreeInv;
      PathStep(m[x].size, m[r].size, Width(m[x].index), depth[p]);
    }
  }

  /** A node below another is within its width. */
  lemma PathEndDepth(m: Chunks, bins: seq<Addr>, depth: Depths, x: Addr)
    requires TreeInv(m, bins, depth) && x in depth
    ensures x in m && depth[x] <= Width(m[x].index)
    ensures m[x].parent.Under? ==> m[x].parent.p in depth && depth[m[x].parent.p] < Width(m[x].index)
  {
    assert NodeOk(m, bins, depth, x);
  }

  /** What `Replaced` does to each chunk. */
  lemma ReplacedAt(m: Chunks, bins: seq<Addr>, depth: Depths, x: Addr, r: Addr, a: Addr)
    requires Around(m, bins, depth, x, r) && a in m && a != x
    ensures a in Replaced(m, x, r)
    ensures var c, c' := m[x], Replaced(m, x, r)[a];
            if a == r then c' == m[a].(parent := c.parent, child0 := c.child0, child1 := c.child1)
            else if c.parent == Under(a) then c' == WithChild(m[a], Bit(c.size, Width(c.index), depth[a]), r)
            else if a != 0 && (a == c.child0 || a == c.child1) then c' == m[a].(parent := Under(r))
            else c' == m[a]
  {
    hide Prefix, Bit, Large, Width, Index, SamePath;
    assert KidOk(m, depth, x, 0) && KidOk(m, depth, x, 1);
    if m[x].parent.Under? {
      assert KidOk(m, depth, m[x].parent.p, 0) && KidOk(m, depth, m[x].parent.p, 1);
    }
  }

  /** The new node itself. */
  lemma ReplaceSelf(m: Chunks, bins: seq<Addr>, depth: Depths, x: Addr, r: Addr)
    requires Around(m, bins, depth, x, r)
    ensures NodeOk(Replaced(m, x, r), RelinkBin(m, bins, x, r), DepthsAfter(depth, x, r), r)
  {
    hide Prefix, Bit, Large, Width, Index, Replaced;
    var c := m[x];
    assert KidOk(m, depth, x, 0) && KidOk(m, depth, x, 1);
    ReplacedAt(m, bins, depth, x, r, r);
    if c.child0 != 0 {
      ReplacedAt(m, bins, depth, x, r, c.child0);
    }
    if c.child1 != 0 {
      ReplacedAt(m, bins, depth, x, r, c.child1);
    }
    if c.parent.Under? {
      ReplacedAt(m, bins, depth, x, r, c.parent.p);
    }
  }

  /** The nodes other than the new one. */
  lemma ReplaceOther(m: Chunks, bins: seq<Addr>, depth: Depths, x: Addr, r: Addr, a: Addr)
    requires Around(m, bins, depth, x, r) && a in depth && a != x && NodeOk(m, bins, depth, a)
    ensures NodeOk(Replaced(m, x, r), RelinkBin(m, bins, x, r), DepthsAfter(depth, x, r), a)
  {
    ReplacedAt(m, bins, depth, x, r, a);
    ReplaceParent(m, bins, depth, x, r, a);
    ReplaceKid(m, bins, depth, x, r, a, 0);
    ReplaceKid(m, bins, depth, x, r, a, 1);
    hide Prefix, Bit, Large, Width, Index, Replaced, ParentOk, KidOk, SamePath, Around, RelinkBin;
  }

  lemma ReplaceParent(m: Chunks, bins: seq<Addr>, depth: Depths, x: Addr, r: Addr, a: Addr)
    requires Around(m, bins, depth, x, r) && a in depth && a != x && NodeOk(m, bins, depth, a)
    ensures a in Replaced(m, x, r)
    ensures ParentOk(Replaced(m, x, r), RelinkBin(m, bins, x, r), DepthsAfter(depth, x, r), a)
  {
    hide Prefix, Bit, Large, Width, Index, Replaced;
    ReplacedAt(m, bins, depth, x, r, a);
    ReplacedAt(m, bins, depth, x, r, r);
    assert KidOk(m, depth, x, 0) && KidOk(m, depth, x, 1);
    if m[a].parent.Under? && m[a].parent.p != x {
      ReplacedAt(m, bins, depth, x, r, m[a].parent.p);
    }
  }

  lemma ReplaceKid(m: Chunks, bins: seq<Addr>, depth: Depths, x: Addr, r: Addr, a: Addr, b: nat)
    requires Around(m, bins, depth, x, r) && a in depth && a != x && NodeOk(m, bins, depth, a) && b < 2
    ensures a in Replaced(m, x, r)
    ensures KidOk(Replaced(m, x, r), DepthsAfter(depth, x, r), a, b)
  {
    hide Prefix, Bit, Large, Width, Index, Replaced, SamePath;
    ReplacedAt(m, bins, depth, x, r, a);
    ReplacedAt(m, bins, depth, x, r, r);
    assert KidOk(m, depth, a, b);
    var k := Child(m[a], b);
    if k != 0 && k != x {
      ReplacedAt(m, bins, depth, x, r, k);
    }
  }

  lemma ReplaceBins(m: Chunks, bins: seq<Addr>, depth: Depths, x: Addr, r: Addr, i: nat)
    requires CanReplace(m, bins, depth, x, r) && i < |bins|
    ensures var bins' := RelinkBin(m, bins, x, r);
            bins'[i] != 0 ==>
              && bins'[i] in DepthsAfter(depth, x, r) && bins'[i] in Replaced(m, x, r)
              && Replaced(m, x, r)[bins'[i]].parent == AtBin(i)
  {
    hide Prefix, Bit, Large, Width, Index;
    assert NodeOk(m, bins, depth, x);
    assert KidOk(m, depth, x, 0) && KidOk(m, depth, x, 1);
    if bins[i] != 0 {
      assert NodeOk(m, bins, depth, bins[i]);
    }
  }

  lemma Replace(m: Chunks, bins: seq<Addr>, depth: Depths, x: Addr, r: Addr)
    requires CanReplace(m, bins, depth, x, r)
    ensures TreeInv(Replaced(m, x, r), RelinkBin(m, bins, x, r), DepthsAfter(depth, x, r))
  {
    hide NodeOk, Replaced, Large, Index, Width, SamePath, Around;
    FindAround(m, bins, depth, x, r);
    var m', bins', depth' := Replaced(m, x, r), RelinkBin(m, bins, x, r), DepthsAfter(depth, x, r);
    forall a | a in depth' ensures NodeOk(m', bins', depth', a) {
      if a == r {
        ReplaceSelf(m, bins, depth, x, r);
      } else {
        NodeAt(m, bins, depth, a);
        ReplaceOther(m, bins, depth, x, r, a);
      }
    }
    forall i | 0 <= i < |bins'| && bins'[i] != 0
      ensures bins'[i] in depth' && bins'[i] in m' && m'[bins'[i]].parent == AtBin(i)
    {
      ReplaceBins(m, bins, depth, x, r, i);
    }
  }
}

/** The tree-binned part of an allocator space, changed in place. */
module MallocStates {
  import opened MallocUnits
  import opened TreeIndex
  import opened TrieBits
  import opened Trie
  import opened Rings
  import opened TreeBins
  import opened TreeUnlink
  import opened BestFit
  import opened BitMaps
  import S = SmallBins

  predicate Disjoint(a: Addr, s: nat, b: Addr, t: nat) {
    a + s <= b || b + t <= a
  }

  /** The chunks do not overlap. */
  ghost predicate Spaced(sizes: map<Addr, nat>) {
    forall a, b :: a in sizes && b in sizes && a != b ==> Disjoint(a, sizes[a], b, sizes[b])
  }

  ghost predicate Bounded(sizes: map<Addr, nat>) {
    forall a :: a in sizes ==> MIN_LARGE_SIZE <= sizes[a] < SIZE_LIMIT
  }

  function Victim(dv: Addr, dvsize: nat): map<Addr, nat> {
    if dvsize == 0 then map[] else map[dv := dvsize]
  }

  /** The free chunks in the tree bins, in the small bins, and the designated victim. */
  ghost predicate AllOrderly(tree: map<Addr, nat>, small: map<Addr, nat>, victim: map<Addr, nat>) {
    && Bounded(tree)
    && tree.Keys !! small.Keys && victim.Keys !! tree.Keys && victim.Keys !! small.Keys
    && OnePlace(tree + small + victim)
  }

  /** Chunks of one segment: they do not overlap, and their sizes are on the grid. */
  ghost predicate OnePlace(all: map<Addr, nat>) {
    Spaced(all) && forall a :: a in all ==> OnGrid(all[a])
  }

  lemma BoundedLarge(s: nat)
    requires MIN_LARGE_SIZE <= s < SIZE_LIMIT
    ensures Large(s)
  {
    RightBinIff(s);
  }

  lemma SizesAre(m: Chunks, x: Addr, c: TChunk, m': Chunks)
    requires x !in m && m'.Keys == m.Keys + {x} && m'[x] == c
    requires forall a :: a in m ==> m'[a].size == m[a].size
    ensures Sizes(m') == Sizes(m)[x := c.size]
  {
  }

  class MallocState {
    var chunks: Chunks
    const treebins: array<Addr>
    var treemap: BinMap
    var smallmap: BinMap
    /** The links of the small bins: of the sentinels and of the chunks. */
    var links: S.Links
    var dv: Addr
    var dvsize: nat
    /** The free chunks in the small bins with their sizes, and their order there. */
    ghost var small: map<Addr, nat>
    ghost var order: S.Orders
    ghost var depth: Depths
    ghost var rings: RingMap

    ghost predicate Valid()
      reads this, treebins
    {
      TreesOk() && S.SmallOk(links, smallmap, small, order)
    }

    ghost predicate TreesOk()
      reads this`chunks, this`treemap, this`depth, this`rings, treebins
    {
      BinsOk(chunks, treebins[..], Marked(treemap), depth, rings)
    }

    constructor ()
      ensures Valid() && Sizes(chunks) == map[] && fresh(treebins) && dvsize == 0 && dv == 0 && small == map[]
    {
      chunks, treebins, treemap := map[], new Addr[NTREEBINS](_ => 0), Zero();
      dv, dvsize, smallmap, links := 0, 0, Zero(), S.EmptyLinks();
      depth, rings := map[], map[];
      small, order := map[], seq(S.NSMALLBINS, _ => []);
      MarkedZero(Zero());
      S.NoneHeld(S.EmptyLinks());
    }

    // ----- insertion -----

    /** `insert_large_chunk` */
    method InsertLarge(x: Addr, s: nat)
      requires Valid() && x !in chunks && x != 0 && Large(s)
      modifies this`chunks, this`treemap, this`depth, this`rings, treebins
      ensures Valid() && Sizes(chunks) == old(Sizes(chunks))[x := s]
    {
      hide BinsOk, S.SmallOk, Large, Index, Sought;
      FindStart(s);
      Shape();
      var i := Index(s);
      InMarked(treemap, i);
      if !treemap[i] {
        InsertFirst(x, s, i);
      } else {
        InsertBelow(x, s, i);
      }
    }

    /** A bin that was empty. */
    method InsertFirst(x: Addr, s: nat, i: nat)
      requires Valid() && x !in chunks && x != 0 && Large(s)
      requires i == Index(s) < treebins.Length && i < MAP_BITS && treebins[i] == 0
      modifies this`chunks, this`treemap, this`depth, this`rings, treebins
      ensures Valid() && Sizes(chunks) == old(Sizes(chunks))[x := s]
    {
      hide BinsOk, S.SmallOk, Large, Index;
      ghost var m := chunks;
      InsertRoot(chunks, treebins[..], Marked(treemap), depth, rings, x, s);
      MarkOne(treemap, i);
      hide Marked, Mark, S.SmallOk;
      treemap := Mark(treemap, i);
      treebins[i] := x;
      chunks := chunks[x := Leaf(s, x, AtBin(i))];
      depth, rings := depth[x := 0], rings[s := [x]];
      SizesAre(m, x, chunks[x], chunks);
    }

    /** The loop of `insert_large_chunk`. */
    method InsertBelow(x: Addr, s: nat, i: nat)
      requires Valid() && x !in chunks && x != 0 && Large(s)
      requires i == Index(s) < treebins.Length && Sought(chunks, depth, treebins[i], s) && depth[treebins[i]] == 0
      modifies this`chunks, this`depth, this`rings
      ensures Valid() && Sizes(chunks) == old(Sizes(chunks))[x := s]
    {
      hide Large, Index, SamePath, BinsOk, Shl, TopBit, Bit, S.SmallOk;
      IndexBound(s);
      var t := treebins[i];
      var k := Shl(s, LeftShift(i));
      while chunks[t].size != s
        invariant chunks == old(chunks) && depth == old(depth) && rings == old(rings)
        invariant Sought(chunks, depth, t, s) && depth[t] <= SIZE_T_BITSIZE
        invariant k == Shl(s, LeftShift(i) + depth[t])
        decreases SIZE_T_BITSIZE - depth[t]
      {
        SearchStep(chunks, treebins[..], Marked(treemap), depth, rings, t, s);
        ShiftedBit(s, Width(i), depth[t]);
        ShlStep(s, LeftShift(i) + depth[t]);
        var b := TopBit(k);
        k := Shl(k, 1);
        var c := Child(chunks[t], b);
        if c != 0 {
          t := c;
        } else {
          HangBelow(x, s, t, b);
          return;
        }
      }
      Enring(x, s, t, i);
    }

    /** `x` becomes a child of `t`. */
    method HangBelow(x: Addr, s: nat, t: Addr, b: nat)
      requires Valid() && x !in chunks && x != 0 && Large(s) && Sought(chunks, depth, t, s) && chunks[t].size != s
      requires b == Bit(s, Width(Index(s)), depth[t]) && Child(chunks[t], b) == 0
      modifies this`chunks, this`depth, this`rings
      ensures Valid() && Sizes(chunks) == old(Sizes(chunks))[x := s]
    {
      hide Large, Index, SamePath, BinsOk, Bit, Child, S.SmallOk;
      ghost var m := chunks;
      InsertLeaf(m, treebins[..], Marked(treemap), depth, rings, t, x, s);
      chunks := chunks[t := WithChild(chunks[t], b, x)];
      chunks := chunks[x := Leaf(s, x, Under(t))];
      depth, rings := depth[x := depth[t] + 1], rings[s := [x]];
      SizesAre(m, x, chunks[x], chunks);
    }

    /** `x` goes into the ring of `t`, behind it. */
    method Enring(x: Addr, s: nat, t: Addr, i: nat)
      requires Valid() && x !in chunks && x != 0 && Large(s) && i == Index(s)
      requires t in depth && t in chunks && chunks[t].size == s
      modifies this`chunks, this`rings
      ensures Valid() && Sizes(chunks) == old(Sizes(chunks))[x := s]
    {
      hide Large, Index, BinsOk, S.SmallOk;
      ghost var m := chunks;
      InsertChained(m, treebins[..], Marked(treemap), depth, rings, t, x, s);
      var f := chunks[t].fd;
      chunks := SetFd(chunks, t, x);
      chunks := SetBk(chunks, f, x);
      chunks := chunks[x := TChunk(s, f, t, 0, 0, Chained, i)];
      rings := rings[s := [t, x] + rings[s][1..]];
      SizesAre(m, x, chunks[x], chunks);
    }

    // ----- unlinking -----

    /** The slot that points to the node `x` points to `r` instead. */
    method RelinkSlot(x: Addr, r: Addr, ghost d: Depths)
      requires CanReplace(chunks, treebins[..], d, x, r)
      modifies this`chunks, treebins
      ensures chunks == Relink(old(chunks), x, r)
      ensures treebins[..] == RelinkBin(old(chunks), old(treebins[..]), x, r)
    {
      Neighbourhood(chunks, treebins[..], d, x, r);
      hide CanReplace, S.SmallOk;
      var i := chunks[x].index;
      if treebins[i] == x {
        treebins[i] := r;
      } else {
        var p := chunks[x].parent.p;
        if chunks[p].child0 == x {
          chunks := chunks[p := chunks[p].(child0 := r)];
        } else {
          chunks := chunks[p := chunks[p].(child1 := r)];
        }
      }
    }

    /** The second half of `unlink_large_chunk`: `r` gets the place of the node `x`. */
    method Relocate(x: Addr, r: Addr, ghost d: Depths)
      requires CanReplace(chunks, treebins[..], d, x, r) && IsLeaf(chunks[r])
      modifies this`chunks, treebins
      ensures chunks == Replaced(old(chunks), x, r)
      ensures treebins[..] == RelinkBin(old(chunks), old(treebins[..]), x, r)
    {
      Neighbourhood(chunks, treebins[..], d, x, r);
      RelinkedAt(chunks, treebins[..], d, x, r);
      RelinkSlot(x, r, d);
      hide CanReplace, Relink, RelinkBin, Adopt, S.SmallOk;
      ghost var m := chunks;
      var xp, c0, c1 := chunks[x].parent, chunks[x].child0, chunks[x].child1;
      chunks := chunks[r := chunks[r].(parent := xp)];
      if c0 != 0 {
        AdoptKid(r, 0, c0);
      }
      if c1 != 0 {
        AdoptKid(r, 1, c1);
      }
      Adopted(m, r, xp, c0, c1);
    }

    method AdoptKid(r: Addr, b: nat, k: Addr)
      requires r in chunks && k in chunks && k != 0 && k != r
      modifies this`chunks
      ensures chunks == Adopt(old(chunks)[r := WithChild(old(chunks)[r], b, k)], k, r)
    {
      chunks := chunks[r := WithChild(chunks[r], b, k)];
      chunks := chunks[k := chunks[k].(parent := Under(r))];
    }

    /** A chunk with others of its size. */
    method UnlinkFromRing(x: Addr)
      requires Valid() && x in chunks && chunks[x].bk != x
      modifies this`chunks, this`depth, this`rings, treebins
      ensures Valid() && Sizes(chunks) == old(Sizes(chunks)) - {x}
    {
      hide BinsOk, CanReplace, Replaced, RelinkBin, S.SmallOk;
      ghost var m, bins := chunks, treebins[..];
      ghost var k := Place(x);
      var xp, f, r := chunks[x].parent, chunks[x].fd, chunks[x].bk;
      ghost var rings', depth' := rings, depth;
      if xp == Chained {
        rings' := UnlinkChained(m, bins, Marked(treemap), depth, rings, x);
      } else {
        depth', rings' := UnlinkLeading(m, bins, Marked(treemap), depth, rings, x);
      }
      chunks := SetBk(chunks, f, r);
      chunks := SetFd(chunks, r, f);
      assert chunks == Unchain(m, x);
      SizesUnchained(m, x);
      if xp != Chained {
        SizesReplaced(chunks, x, r);
        Relocate(x, r, depth);
      }
      chunks := chunks - {x};
      depth, rings := depth', rings';
    }

    ghost method Place(x: Addr) returns (k: nat)
      requires Valid() && x in chunks
      ensures chunks[x].fd in chunks && chunks[x].bk in chunks
      ensures x in depth <==> chunks[x].parent != Chained
    {
      k := PlaceInRing(chunks, treebins[..], Marked(treemap), depth, rings, x);
    }

    /** The rightmost leaf below the node `x`, and where it hangs. */
    method DeepestLeaf(x: Addr) returns (p: Addr, b: nat, r: Addr)
      requires Valid() && x in chunks && x in depth && !IsLeaf(chunks[x])
      ensures Descending(chunks, depth, x, p, b, r) && IsLeaf(chunks[r])
    {
      hide RingInv, HeadsOk, MapOk, Large, Index, SamePath, TreeInv, S.SmallOk;
      p, b := x, if chunks[x].child1 != 0 then 1 else 0;
      r := Child(chunks[x], b);
      DescendStart(chunks, treebins[..], depth, x, b);
      while chunks[r].child1 != 0 || chunks[r].child0 != 0
        invariant Descending(chunks, depth, x, p, b, r)
        decreases Width(chunks[x].index) - depth[r]
      {
        var c := if chunks[r].child1 != 0 then 1 else 0;
        DescendStep(chunks, treebins[..], depth, x, p, b, r, c);
        p, b := r, c;
        r := Child(chunks[r], c);
      }
    }

    /** A chunk alone of its size, with children. */
    method UnlinkWithLeaf(x: Addr)
      requires Valid() && x in chunks && chunks[x].bk == x && !IsLeaf(chunks[x])
      modifies this`chunks, this`depth, this`rings, treebins
      ensures Valid() && Sizes(chunks) == old(Sizes(chunks)) - {x}
    {
      hide BinsOk, CanReplace, Replaced, RelinkBin, Large, Index, SamePath, S.SmallOk;
      ghost var m, bins := chunks, treebins[..];
      ghost var k := PlaceInRing(m, bins, Marked(treemap), depth, rings, x);
      assert x in depth;
      var p, b, r := DeepestLeaf(x);
      ghost var depth', rings' := UnlinkInner(m, bins, Marked(treemap), depth, rings, x, p, b, r);
      chunks := chunks[p := WithChild(chunks[p], b, 0)];
      SizesReplaced(chunks, x, r);
      Relocate(x, r, depth - {r});
      chunks := chunks - {x};
      depth, rings := depth', rings';
    }

    /** A chunk alone of its size, without children. */
    method UnlinkAlone(x: Addr)
      requires Valid() && x in chunks && chunks[x].bk == x && IsLeaf(chunks[x])
      modifies this`chunks, this`treemap, this`depth, this`rings, treebins
      ensures Valid() && Sizes(chunks) == old(Sizes(chunks)) - {x}
    {
      hide TreeInv, RingInv, HeadsOk, MapOk, Large, Index, SamePath, HeadOk, S.SmallOk;
      ghost var m, bins := chunks, treebins[..];
      ghost var k := PlaceInRing(m, bins, Marked(treemap), depth, rings, x);
      assert x in depth;
      NodeFacts(m, bins, Marked(treemap), depth, rings, x);
      ghost var depth', rings' := UnlinkLast(m, bins, Marked(treemap), depth, rings, x);
      SizesRelinked(m, x);
      var i := chunks[x].index;
      if treebins[i] == x {
        Shape();
        treebins[i] := 0;
        ClearOne(treemap, i);
        hide Clear;
        treemap := Clear(treemap, i);
      } else {
        var p := chunks[x].parent.p;
        if chunks[p].child0 == x {
          chunks := chunks[p := chunks[p].(child0 := 0)];
        } else {
          chunks := chunks[p := chunks[p].(child1 := 0)];
        }
      }
      chunks := chunks - {x};
      depth, rings := depth', rings';
    }

    /** `unlink_large_chunk` */
    method UnlinkLarge(x: Addr)
      requires Valid() && x in chunks
      modifies this`chunks, this`treemap, this`depth, this`rings, treebins
      ensures Valid() && Sizes(chunks) == old(Sizes(chunks)) - {x}
    {
      if chunks[x].bk != x {
        UnlinkFromRing(x);
      } else if chunks[x].child1 != 0 || chunks[x].child0 != 0 {
        UnlinkWithLeaf(x);
      } else {
        UnlinkAlone(x);
      }
    }

    // ----- searching -----

    lemma Shape()
      requires Valid()
      ensures treebins.Length == NTREEBINS
      ensures forall j :: j in Marked(treemap) ==> j < NTREEBINS
      ensures forall j :: 0 <= j < treebins.Length ==> (j in Marked(treemap) <==> treebins[j] != 0)
    {
      hide TreeInv, RingInv, HeadsOk, S.SmallOk;
      assert |treebins[..]| == NTREEBINS by {
        BinCount(chunks, treebins[..], depth);
      }
    }

    lemma FindStart(size: nat)
      requires Valid() && Large(size)
      ensures Index(size) < NTREEBINS == treebins.Length
      ensures size in rings <==> exists a :: a in chunks && chunks[a].size == size
      ensures var t := treebins[Index(size)];
              if t == 0 then size !in rings else Sought(chunks, depth, t, size) && depth[t] == 0
    {
      Shape();
      IndexBound(size);
      SearchStart(chunks, treebins[..], Marked(treemap), depth, rings, size);
      RingsTell(chunks, rings, size);
    }

    lemma FindStep(size: nat, t: Addr, sizebits: nat)
      requires Valid() && Large(size) && Sought(chunks, depth, t, size) && chunks[t].size != size
      requires Index(size) < NTREEBINS && sizebits == Shl(size, LeftShift(Index(size)) + depth[t])
      ensures depth[t] < SIZE_T_BITSIZE
      ensures var c := Child(chunks[t], TopBit(sizebits));
              if c == 0 then size !in rings
              else Sought(chunks, depth, c, size) && depth[c] == depth[t] + 1
                   && Shl(sizebits, 1) == Shl(size, LeftShift(Index(size)) + depth[c])
    {
      hide BinsOk, Shl, TopBit, Index, Large, SamePath, Bit, Width, S.SmallOk;
      SearchStep(chunks, treebins[..], Marked(treemap), depth, rings, t, size);
      hide Sought, S.SmallOk;
      ShiftedBit(size, Width(Index(size)), depth[t]);
      ShlStep(size, LeftShift(Index(size)) + depth[t]);
    }

    /** The node for a size, found by its bits alone: every size in the bins is found. */
    method NodeOf(size: nat) returns (t: Addr)
      requires Valid() && Large(size)
      ensures t == 0 <==> forall a :: a in chunks ==> chunks[a].size != size
      ensures t != 0 ==>
              t in chunks && chunks[t].size == size && t in depth && size in rings && rings[size] != []
                  && t == rings[size][0]
    {
      hide BinsOk, Shl, TopBit, Index, Large, LeftShift, SamePath, S.SmallOk;
      Shape();
      FindStart(size);
      var i := Index(size);
      if !treemap[i] {
        return 0;
      }
      t := treebins[i];
      var sizebits := Shl(size, LeftShift(i));
      while t != 0 && chunks[t].size != size
        invariant t == 0 ==> size !in rings
        invariant t != 0 ==>
                    && Sought(chunks, depth, t, size) && depth[t] <= SIZE_T_BITSIZE
                    && sizebits == Shl(size, LeftShift(i) + depth[t])
        decreases if t == 0 then 0 else 1 + SIZE_T_BITSIZE - depth[t]
      {
        FindStep(size, t, sizebits);
        t := Child(chunks[t], TopBit(sizebits));
        sizebits := Shl(sizebits, 1);
      }
      if t != 0 {
        LeadsRing(t);
      }
    }

    lemma LeadsRing(t: Addr)
      requires Valid() && t in chunks && t in depth
      ensures var s := chunks[t].size; s in rings && rings[s] != [] && t == rings[s][0]
    {
      hide TreeInv, RingInv, MapOk, S.SmallOk;
      var k := PlaceInRing(chunks, treebins[..], Marked(treemap), depth, rings, t);
    }

    lemma RingAt(size: nat, k: nat)
      requires Valid() && size in rings && k < |rings[size]|
      ensures rings[size][k] in chunks && chunks[rings[size][k]].size == size
      ensures chunks[rings[size][k]].fd == rings[size][if k + 1 == |rings[size]| then 0 else k + 1]
      ensures k > 0 ==> rings[size][k] != rings[size][0]
    {
      hide TreeInv, HeadsOk, MapOk, S.SmallOk;
      RingMember(chunks, rings, size, k);
    }

    lemma InItsRing(x: Addr)
      requires Valid() && x in chunks
      ensures chunks[x].size in rings && x in rings[chunks[x].size]
    {
      hide TreeInv, HeadsOk, MapOk, S.SmallOk;
      assert InRing(chunks, rings, x);
    }

    /** Once round the ring that the node `t` leads. */
    method GoRound(t: Addr, x: Addr, ghost size: nat) returns (found: bool)
      requires Valid() && size in rings && rings[size] != [] && t == rings[size][0]
      ensures found <==> x in rings[size]
    {
      hide BinsOk, S.SmallOk;
      var u := t;
      ghost var k := 0;
      RingAt(size, 0);
      while true
        invariant 0 <= k < |rings[size]| && u == rings[size][k] && u in chunks
        invariant forall j :: 0 <= j < k ==> rings[size][j] != x
        decreases |rings[size]| - k
      {
        if u == x {
          return true;
        }
        RingAt(size, k);
        u := chunks[u].fd;
        if k + 1 < |rings[size]| {
          RingAt(size, k + 1);
        }
        if u == t {
          return false;
        }
        k := k + 1;
      }
    }

    /** Once round the ring of a small bin, from its sentinel. */
    method FindSmall(x: Addr, i: nat) returns (found: bool)
      requires Valid() && i < S.NSMALLBINS && i in Marked(smallmap)
      ensures found <==> x in order[i]
    {
      hide BinsOk;
      SmallBin(i);
      hide S.SmallOk;
      var p := links[S.Bin(i)].fd;
      ghost var k := 0;
      while p != S.Bin(i)
        invariant 0 <= k <= |order[i]| && p == S.Stop(i, order[i], k + 1)
        invariant forall j :: 0 <= j < k ==> order[i][j] != x
        decreases |order[i]| - k
      {
        if p == S.At(x) {
          return true;
        }
        assert S.Linked(links, i, order[i], k + 1);
        p := links[p].fd;
        k := k + 1;
      }
      return false;
    }

    lemma SmallBin(i: nat)
      requires Valid() && i < S.NSMALLBINS
      ensures |order| == S.NSMALLBINS && S.BinOk(links, Marked(smallmap), small, order, i)
      ensures i in Marked(smallmap) ==> S.RingOk(links, i, order[i]) && S.Linked(links, i, order[i], 0)
    {
      hide BinsOk;
      assert S.BinOk(links, Marked(smallmap), small, order, i);
      if i in Marked(smallmap) {
        assert S.Linked(links, i, order[i], 0);
      }
    }

    /** `bin_find`: whether the chunk `x`, of size `size`, is in a bin. */
    method BinFind(x: Addr, size: nat) returns (found: bool)
      requires Valid() && (size < MIN_LARGE_SIZE || Large(size)) && OnGrid(size)
      ensures found <==>
        if size < MIN_LARGE_SIZE then x in small && small[x] == size else x in chunks && chunks[x].size == size
    {
      hide BinsOk, Large, S.SmallOk;
      found := false;
      if size < MIN_LARGE_SIZE {
        InSmallBin(x, size);
        if smallmap[S.SmallIndex(size)] {
          found := FindSmall(x, S.SmallIndex(size));
        }
      } else {
        var t := NodeOf(size);
        if t != 0 {
          found := GoRound(t, x, size);
          RingHolds(x, size);
        }
      }
    }

    lemma RingHolds(x: Addr, size: nat)
      requires Valid() && size in rings
      ensures x in rings[size] <==> x in chunks && chunks[x].size == size
    {
      hide BinsOk, S.SmallOk;
      if x in chunks && chunks[x].size == size {
        InItsRing(x);
      }
      if x in rings[size] {
        var k :| 0 <= k < |rings[size]| && rings[size][k] == x;
        RingAt(size, k);
      }
    }

    lemma InSmallBin(x: Addr, size: nat)
      requires Valid() && size < MIN_LARGE_SIZE && OnGrid(size)
      ensures var i := S.SmallIndex(size);
              i < S.NSMALLBINS == |order| && (x in order[i] <==> x in small && small[x] == size)
                  && (i !in Marked(smallmap) ==> x !in order[i])
    {
      hide BinsOk;
      var i := S.SmallIndex(size);
      SmallBin(i);
    }

    /** Compares the node `t` with what was found so far, by unsigned remainders. */
    method LookAt(t: Addr, nb: nat, v0: Addr, rsize0: nat) returns (v: Addr, rsize: nat)
      requires Valid() && t != 0 && t in depth && t in chunks && 0 < nb < WORD && Found(chunks, depth, nb, v0, rsize0)
      ensures Found(chunks, depth, nb, v, rsize) && NoBetter(chunks, nb, rsize, t)
      ensures rsize <= rsize0 && (v == v0 || v == t)
    {
      NodeSize(chunks, treebins[..], depth, t);
      hide BinsOk, S.SmallOk;
      Look(chunks, depth, nb, v0, rsize0, t);
      v, rsize := v0, rsize0;
      var trem := Sub(chunks[t].size, nb);
      if trem < rsize {
        v, rsize := t, trem;
      }
    }

    /** One turn on the way down the bin of the request. */
    method Turn(t: Addr, rst: Addr, nb: nat, sizebits: nat, ghost before: nat, ghost rsize: nat)
      returns (t': Addr, rst': Addr, sizebits': nat)
      requires Valid() && t != 0 && t in depth && t in chunks && chunks[t].index == Index(nb) < NTREEBINS
      requires sizebits == Shl(nb, LeftShift(Index(nb)) + depth[t])
      requires Descent(chunks, depth, t, rst, nb, before, depth[t]) && rsize <= before && NoBetter(chunks, nb, rsize, t)
      requires rst != 0 ==> rst in depth && rst in chunks
      ensures Descent(chunks, depth, t', rst', nb, rsize, depth[t] + 1)
      ensures t' != 0 ==>
              t' in depth && t' in chunks && chunks[t'].index == Index(nb)
                  && depth[t'] == depth[t] + 1 <= SIZE_T_BITSIZE
      ensures rst' != 0 ==> rst' in depth && rst' in chunks
      ensures sizebits' == Shl(nb, LeftShift(Index(nb)) + depth[t] + 1)
    {
      hide Large, Index, SamePath, TreeInv, RingInv, HeadsOk, MapOk, Shl, TopBit, Bit, Descent, NoBetter, S.SmallOk;
      TakenBit(nb, Index(nb), depth[t]);
      ShlStep(nb, LeftShift(Index(nb)) + depth[t]);
      DescentStep(chunks, treebins[..], depth, t, rst, nb, before, rsize);
      KidOf(chunks, treebins[..], depth, t, 0);
      KidOf(chunks, treebins[..], depth, t, 1);
      rst' := rst;
      var rt := chunks[t].child1;
      t' := Child(chunks[t], TopBit(sizebits));
      if rt != 0 && rt != t' {
        rst' := rt;
      }
      sizebits' := Shl(sizebits, 1);
    }

    /** The first loop of `tmalloc_large`: down the bin of the request, remembering the deepest
        right subtree that is not taken. */
    method Descend(nb: nat) returns (t: Addr, v: Addr, rsize: nat, ghost d: nat)
      requires Valid() && MIN_LARGE_SIZE <= nb < WORD
      requires Large(nb) || forall a :: a in chunks ==> chunks[a].size < nb
      requires Index(nb) < treebins.Length && treebins[Index(nb)] != 0
      ensures Found(chunks, depth, nb, v, rsize) && (v != 0 ==> chunks[v].index == Index(nb))
      ensures if t != 0 then t in depth && t in chunks && Left(chunks, depth, t, nb, rsize)
              else Descent(chunks, depth, 0, 0, nb, rsize, d)
    {
      hide BinsOk, Large, Index, SamePath, Shl, Left, Descent, NoBetter, LeftShift, S.SmallOk;
      DescendFrom(nb);
      v, rsize, t := 0, Sub(0, nb), treebins[Index(nb)];
      var sizebits := Shl(nb, LeftShift(Index(nb)));
      var rst := 0;
      d := 0;
      while true
        invariant t != 0 && t in depth && t in chunks && chunks[t].index == Index(nb) && depth[t] <= SIZE_T_BITSIZE
        invariant rst != 0 ==> rst in depth && rst in chunks
        invariant Found(chunks, depth, nb, v, rsize) && (v != 0 ==> chunks[v].index == Index(nb))
        invariant Descent(chunks, depth, t, rst, nb, rsize, depth[t])
        invariant sizebits == Shl(nb, LeftShift(Index(nb)) + depth[t])
        decreases SIZE_T_BITSIZE - depth[t]
      {
        ghost var before := rsize;
        v, rsize := LookAt(t, nb, v, rsize);
        if rsize == 0 {
          ExactSettles(chunks, depth, t, nb);
          return;
        }
        d := depth[t] + 1;
        t, rst, sizebits := Turn(t, rst, nb, sizebits, before, rsize);
        if t == 0 {
          t := rst;
          if rst != 0 {
            RestLeft(rst, nb, rsize, d);
          }
          return;
        }
      }
    }

    lemma DescendFrom(nb: nat)
      requires Valid() && MIN_LARGE_SIZE <= nb < WORD
      requires Large(nb) || forall a :: a in chunks ==> chunks[a].size < nb
      ensures Index(nb) < NTREEBINS == treebins.Length
      ensures Descent(chunks, depth, treebins[Index(nb)], 0, nb, Sub(0, nb), 0)
              && Found(chunks, depth, nb, 0, Sub(0, nb))
      ensures var t := treebins[Index(nb)];
              t != 0 ==> t in depth && t in chunks && chunks[t].index == Index(nb) && depth[t] == 0
    {
      Shape();
      IndexBound(nb);
      DescentStart(chunks, treebins[..], depth, nb, Sub(0, nb));
      if treebins[Index(nb)] != 0 {
        RootAt(chunks, treebins[..], depth, Index(nb));
      }
    }

    lemma RestLeft(rst: Addr, nb: nat, rsize: nat, d: nat)
      requires Valid() && Descent(chunks, depth, 0, rst, nb, rsize, d) && rst != 0 && rst in depth && rst in chunks
      ensures Left(chunks, depth, rst, nb, rsize)
    {
      DescentLeft(chunks, treebins[..], depth, rst, nb, rsize, d);
    }

    /** The least marked bin. */
    method LeastTree() returns (i: nat)
      requires Valid() && treemap != Zero()
      ensures i in Marked(treemap) && forall j :: j in Marked(treemap) ==> i <= j
    {
      LeastOf(treemap);
      i := BitToIdx(LeastBit(treemap));
    }

    /** The least marked bin after bin `idx`; `NTREEBINS` if there is none. */
    method NextTree(idx: nat) returns (i: nat)
      requires Valid() && idx < NTREEBINS
      ensures i == NTREEBINS ==> forall j :: j in Marked(treemap) ==> j <= idx
      ensures i < NTREEBINS ==> i in Marked(treemap) && i > idx && forall j :: j in Marked(treemap) && j > idx ==>
              i <= j
      ensures i <= NTREEBINS
    {
      hide BinsOk, S.SmallOk;
      var leftbits := And(LeftBits(IdxToBit(idx)), treemap);
      LeftOf(treemap, idx);
      LeastOf(leftbits);
      MarkedZero(leftbits);
      hide Marked, S.SmallOk;
      forall j | j in Marked(treemap) && j > idx ensures j in Marked(leftbits) {
      }
      if leftbits == Zero() {
        i := NTREEBINS;
      } else {
        i := BitToIdx(LeastBit(leftbits));
      }
    }

    /** The last loop: down the leftmost path from `t`. */
    method Scan(nb: nat, t0: Addr, v0: Addr, rsize0: nat) returns (v: Addr, rsize: nat)
      requires Valid() && 0 < nb < WORD && Found(chunks, depth, nb, v0, rsize0) && Left(chunks, depth, t0, nb, rsize0)
      requires t0 != 0 ==> t0 in depth && t0 in chunks
      ensures Found(chunks, depth, nb, v, rsize) && Settled(chunks, depth, nb, rsize)
    {
      hide Large, Index, SamePath, TreeInv, RingInv, HeadsOk, MapOk, NoBetter, S.SmallOk;
      v, rsize := v0, rsize0;
      var t := t0;
      while t != 0
        invariant t != 0 ==> t in depth && t in chunks
        invariant Found(chunks, depth, nb, v, rsize) && Left(chunks, depth, t, nb, rsize)
        decreases if t == 0 then 0 else 1 + SIZE_T_BITSIZE - depth[t]
      {
        ghost var before := rsize;
        v, rsize := LookAt(t, nb, v, rsize);
        NodeSize(chunks, treebins[..], depth, t);
        ScanStep(chunks, treebins[..], depth, t, nb, before, rsize);
        t := Leftmost(chunks[t]);
        if t != 0 {
          NodeSize(chunks, treebins[..], depth, t);
        }
      }
    }

    /** The search of `tmalloc_large`: a smallest chunk of at least `nb`, if there is one. */
    method FindLarge(nb: nat) returns (v: Addr, rsize: nat)
      requires Valid() && MIN_LARGE_SIZE <= nb < WORD
      requires Large(nb) || forall a :: a in chunks ==> chunks[a].size < nb
      ensures if v == 0 then rsize == WORD - nb && forall a :: a in chunks ==> chunks[a].size < nb
              else BestFor(Sizes(chunks), nb, v) && rsize == chunks[v].size - nb
    {
      hide Large, Index, SamePath, TreeInv, RingInv, HeadsOk, MapOk, Left, Descent, NoBetter, Settled, S.SmallOk,
          BestFor;
      IndexBound(nb);
      Shape();
      var idx := Index(nb);
      var t: Addr := 0;
      ghost var d: nat := 0;
      v, rsize := 0, Sub(0, nb);
      if treebins[idx] != 0 {
        t, v, rsize, d := Descend(nb);
      } else {
        DescentStart(chunks, treebins[..], depth, nb, rsize);
      }
      if t == 0 && v == 0 {
        var i := NextTree(idx);
        if i < NTREEBINS {
          NextBin(chunks, treebins[..], Marked(treemap), depth, nb, rsize, d, i);
          t := treebins[i];
        } else {
          NoNextBin(chunks, treebins[..], Marked(treemap), depth, nb, rsize, d);
          NothingLeft(chunks, depth, nb, rsize);
        }
      } else if t == 0 {
        DescentSettled(chunks, treebins[..], depth, nb, v, rsize, d);
        NothingLeft(chunks, depth, nb, rsize);
      }
      v, rsize := Scan(nb, t, v, rsize);
      BestOfAll(chunks, treebins[..], Marked(treemap), depth, rings, nb, v, rsize);
    }

    // ----- allocation from the tree bins -----

    /** What the allocator keeps to: the free chunks of all bins and the designated victim do not
        overlap, their sizes are on the grid, and none reaches the limit. */
    ghost predicate Orderly()
      reads this`chunks, this`small, this`dv, this`dvsize
    {
      AllOrderly(Sizes(chunks), small, Victim(dv, dvsize))
    }

    /** `insert_small_chunk` */
    method InsertSmall(a: Addr, s: nat)
      requires Valid() && a !in small && s < MIN_LARGE_SIZE && OnGrid(s)
      modifies this`links, this`smallmap, this`small, this`order
      ensures Valid() && small == old(small)[a := s]
    {
      hide BinsOk, S.SmallOk;
      var i := S.SmallIndex(s);
      S.InsertOk(links, smallmap, small, order, a, i);
      ghost var l, marked := links, Marked(smallmap);
      var b, f := S.Bin(i), S.Bin(i);
      if !smallmap[i] {
        smallmap := Mark(smallmap, i);
      } else {
        f := links[b].fd;
        MarkedAlready(smallmap, i);
      }
      links := links[b := links[b].(fd := S.At(a))];
      links := links[f := links[f].(bk := S.At(a))];
      links := links[S.At(a) := S.Link(f, b)];
      small, order := small[a := s], order[i := [a] + order[i]];
    }

    /** `unlink_small_chunk`, and `unlink_first_small_chunk` if `a` is the first. */
    method UnlinkSmall(a: Addr, s: nat)
      requires Valid() && a in small && small[a] == s
      modifies this`links, this`smallmap, this`small, this`order
      ensures Valid() && small == old(small) - {a}
    {
      hide BinsOk, S.SmallOk;
      ghost var k := S.PlaceOf(links, smallmap, small, order, a);
      S.UnlinkOk(links, smallmap, small, order, a, k);
      var f, b := links[S.At(a)].fd, links[S.At(a)].bk;
      var i := S.SmallIndex(s);
      if b == f {
        smallmap := Clear(smallmap, i);
      } else {
        links := links[f := links[f].(bk := b)];
        links := links[b := links[b].(fd := f)];
      }
      links := links - {S.At(a)};
      small, order := small - {a}, order[i := S.Without(order[i], k)];
    }

    /** `insert_chunk` */
    method InsertChunk(r: Addr, s: nat)
      requires Valid() && r !in chunks && r !in small && r != 0 && s < SIZE_LIMIT && OnGrid(s)
      modifies this`chunks, this`treemap, this`depth, this`rings, this`links, this`smallmap, this`small, this`order
      modifies treebins
      ensures Valid()
      ensures Sizes(chunks) == if s < MIN_LARGE_SIZE then old(Sizes(chunks)) else old(Sizes(chunks))[r := s]
      ensures small == if s < MIN_LARGE_SIZE then old(small)[r := s] else old(small)
    {
      hide BinsOk, S.SmallOk;
      if s < MIN_LARGE_SIZE {
        InsertSmall(r, s);
      } else {
        BoundedLarge(s);
        InsertLarge(r, s);
      }
    }

    /** `replace_dv` */
    method ReplaceVictim(r: Addr, rsize: nat)
      requires Valid() && dvsize < MIN_LARGE_SIZE && (dvsize != 0 ==> dv !in small && OnGrid(dvsize))
      modifies this`links, this`smallmap, this`small, this`order, this`dv, this`dvsize
      ensures Valid() && dv == r && dvsize == rsize
      ensures small == if old(dvsize) != 0 then old(small)[old(dv) := old(dvsize)] else old(small)
    {
      hide BinsOk, S.SmallOk;
      if dvsize != 0 {
        InsertSmall(dv, dvsize);
      }
      dvsize, dv := rsize, r;
    }

    /** A large request takes a smallest chunk that is large enough, unless the designated
        victim fits at least as well or nothing does. */
    method TmallocLarge(nb: nat) returns (v: Addr)
      requires Valid() && Orderly() && MIN_LARGE_SIZE <= nb < WORD && OnGrid(nb) && dvsize < WORD
      modifies this`chunks, this`treemap, this`depth, this`rings, this`links, this`smallmap, this`small, this`order
      modifies treebins
      ensures Valid() && Orderly()
      ensures v == 0 <==> forall a :: a in old(chunks) ==>
              old(chunks[a].size) < nb || nb <= dvsize <= old(chunks[a].size)
      ensures v == 0 ==> chunks == old(chunks) && treebins[..] == old(treebins[..]) && small == old(small)
      ensures v != 0 ==>
        && BestFor(old(Sizes(chunks)), nb, v)
        && Taken(old(Sizes(chunks)), old(small), v, nb, Sizes(chunks), small)
    {
      hide BinsOk, S.SmallOk, Large, BestFor, Taken, Spaced;
      Requested(chunks, nb);
      var rsize;
      v, rsize := FindLarge(nb);
      VictimFits(chunks, nb, v, dvsize);
      if v != 0 && rsize < Sub(dvsize, nb) {
        ghost var tree, smalls := Sizes(chunks), small;
        Split(v, nb);
        TakenOrderly(tree, smalls, Victim(dv, dvsize), v, nb, Sizes(chunks), small);
      } else {
        v := 0;
      }
    }

    /** The front part of the chunk `v` is taken, the rest goes back into the bins. */
    method Split(v: Addr, nb: nat)
      requires Valid() && Orderly() && v in chunks && 0 < nb <= chunks[v].size && OnGrid(nb)
      modifies this`chunks, this`treemap, this`depth, this`rings, this`links, this`smallmap, this`small, this`order
      modifies treebins
      ensures Valid() && Taken(old(Sizes(chunks)), old(small), v, nb, Sizes(chunks), small)
    {
      hide BinsOk, S.SmallOk, Large, Spaced;
      PlaceFree(v, nb);
      var rsize := chunks[v].size - nb;
      SizesKeys(chunks);
      assert Sizes(chunks)[v] < SIZE_LIMIT && OnGrid(Sizes(chunks)[v]);
      UnlinkLarge(v);
      SizesKeys(chunks);
      if rsize >= MIN_CHUNK_SIZE {
        InsertChunk(v + nb, rsize);
      }
    }

    /** The place behind the front part of a chunk is no chunk. */
    lemma PlaceFree(v: Addr, nb: nat)
      requires Valid() && Orderly() && v in chunks && 0 < nb <= chunks[v].size
      ensures nb < chunks[v].size ==> v + nb !in chunks && v + nb !in small
      ensures v != 0 && OnGrid(Sizes(chunks)[v])
    {
      hide TreeInv, HeadsOk, MapOk, S.SmallOk;
      Member(chunks, rings, v);
      SizesKeys(chunks);
      ghost var all := Sizes(chunks) + small + Victim(dv, dvsize);
      assert all[v] == Sizes(chunks)[v];
      if nb < chunks[v].size {
        PartSpaced(all, v, nb);
      }
    }

    /** The smallest chunk of all. */
    method Smallest(nb: nat) returns (v: Addr, rsize: nat)
      requires Valid() && Orderly() && 0 < nb < MIN_LARGE_SIZE && treemap != Zero()
      ensures v in chunks && chunks[v].size >= nb && rsize == chunks[v].size - nb
      ensures forall a :: a in chunks ==> chunks[v].size <= chunks[a].size
    {
      hide BinsOk, S.SmallOk, Left, Found, Settled, Spaced;
      Shape();
      var i := LeastTree();
      SmallStart(nb, i);
      var t := treebins[i];
      v := t;
      rsize := chunks[t].size - nb;
      t := Leftmost(chunks[t]);
      v, rsize := Scan(nb, t, v, rsize);
      BestOfAll(chunks, treebins[..], Marked(treemap), depth, rings, nb, v, rsize);
      assert v != 0 by {
        assert Found(chunks, depth, nb, v, rsize);
        assert chunks[treebins[i]].size >= nb;
      }
      SmallestOfAll(chunks, nb, v);
    }

    /** A small request that neither the small bins nor the designated victim can serve takes
        the smallest chunk of all. What is left over becomes the designated victim. */
    method TmallocSmall(nb: nat) returns (v: Addr)
      requires Valid() && Orderly() && 0 < nb < MIN_LARGE_SIZE && OnGrid(nb)
      requires treemap != Zero() && dvsize < MIN_LARGE_SIZE
      modifies this`chunks, this`treemap, this`depth, this`rings, this`links, this`smallmap, this`small, this`order
      modifies this`dv, this`dvsize, treebins
      ensures Valid() && Orderly()
      ensures v in old(chunks) && forall a :: a in old(chunks) ==> old(chunks[v].size) <= old(chunks[a].size)
      ensures Sizes(chunks) == old(Sizes(chunks)) - {v}
      ensures var rest := old(chunks)[v].size - nb;
              if rest < MIN_CHUNK_SIZE then dv == old(dv) && dvsize == old(dvsize) && small == old(small)
              else
                && dv == v + nb && dvsize == rest
                && small == (if old(dvsize) != 0 then old(small)[old(dv) := old(dvsize)] else old(small))
    {
      hide BinsOk, S.SmallOk, Spaced, Marked;
      var rsize;
      v, rsize := Smallest(nb);
      SizesKeys(chunks);
      VictimTaken(Sizes(chunks), small, dv, dvsize, v, nb);
      UnlinkLarge(v);
      if rsize >= MIN_CHUNK_SIZE {
        ReplaceVictim(v + nb, rsize);
      }
    }

    /** The root of the least bin, and how the scan goes on from it. */
    lemma SmallStart(nb: nat, i: nat)
      requires Valid() && Orderly() && 0 < nb < MIN_LARGE_SIZE
      requires i in Marked(treemap) && forall j :: j in Marked(treemap) ==> i <= j
      ensures i < treebins.Length && var t := treebins[i];
              && t in chunks && chunks[t].size >= MIN_LARGE_SIZE && t != 0
              && Found(chunks, depth, nb, t, chunks[t].size - nb)
              && var k := Leftmost(chunks[t]);
                 (k != 0 ==> k in depth && k in chunks) && Left(chunks, depth, k, nb, chunks[t].size - nb)
    {
      Shape();
      var t := treebins[i];
      RootAt(chunks, treebins[..], depth, i);
      NodeSize(chunks, treebins[..], depth, t);
      assert Sizes(chunks)[t] >= MIN_LARGE_SIZE;
      LeastBin(chunks, treebins[..], Marked(treemap), depth, nb, i, WORD);
      ScanStep(chunks, treebins[..], depth, t, nb, WORD, chunks[t].size - nb);
      hide BinsOk, S.SmallOk;
    }
  }

  /** Adopting one child after the other comes to the same as setting both fields first. */
  lemma Adopted(m: Chunks, r: Addr, xp: Parent, c0: Addr, c1: Addr)
    requires r in m && IsLeaf(m[r]) && (c0 != 0 ==> c0 in m && c0 != r && c0 != c1) && (c1 != 0 ==> c1 in m && c1 != r)
    ensures var m1 := m[r := m[r].(parent := xp)];
            var m2 := if c0 != 0 then Adopt(m1[r := WithChild(m1[r], 0, c0)], c0, r) else m1;
            r in m2 &&
            var m3 := if c1 != 0 then Adopt(m2[r := WithChild(m2[r], 1, c1)], c1, r) else m2;
            m3 == Adopt(Adopt(m[r := m[r].(parent := xp, child0 := c0, child1 := c1)], c0, r), c1, r)
  {
    if c0 != 0 {
      AdoptFirst(m[r := m[r].(parent := xp)], r, c0, c1);
    }
  }

  lemma AdoptFirst(m: Chunks, r: Addr, c0: Addr, c1: Addr)
    requires r in m && c0 in m && c0 != r && c0 != 0
    ensures var m2 := Adopt(m[r := WithChild(m[r], 0, c0)], c0, r);
            r in m2 && m2[r := WithChild(m2[r], 1, c1)] == Adopt(m[r := m[r].(child0 := c0, child1 := c1)], c0, r)
  {
  }

  lemma RelinkedAt(m: Chunks, bins: seq<Addr>, depth: Depths, x: Addr, r: Addr)
    requires CanReplace(m, bins, depth, x, r)
    ensures Relink(m, x, r).Keys == m.Keys && Relink(m, x, r)[x] == m[x] && Relink(m, x, r)[r] == m[r]
  {
    Neighbourhood(m, bins, depth, x, r);
    hide CanReplace;
  }

  lemma SizesUnchained(m: Chunks, x: Addr)
    requires x in m && m[x].fd in m && m[x].bk in m
    ensures Sizes(Unchain(m, x)) == Sizes(m) && Sizes(Unchain(m, x) - {x}) == Sizes(m) - {x}
  {
  }

  lemma SizesReplaced(m: Chunks, x: Addr, r: Addr)
    requires x in m && r in m
    ensures Sizes(Replaced(m, x, r) - {x}) == Sizes(m) - {x}
  {
    ReplacedKeys(m, x, r);
    SameSizes(m, Replaced(m, x, r), x);
  }

  lemma SameSizes(m: Chunks, m': Chunks, x: Addr)
    requires m'.Keys == m.Keys && forall a :: a in m ==> m'[a].size == m[a].size
    ensures Sizes(m' - {x}) == Sizes(m) - {x}
  {
  }

  lemma SizesRelinked(m: Chunks, x: Addr)
    requires x in m
    ensures Sizes(Relink(m, x, 0) - {x}) == Sizes(m) - {x}
  {
  }

  // ----- facts for the searches -----

  /** `v` is a smallest chunk of at least `nb`. */
  ghost predicate BestFor(sizes: map<Addr, nat>, nb: nat, v: Addr) {
    v in sizes && sizes[v] >= nb && forall a :: a in sizes && sizes[a] >= nb ==> sizes[v] <= sizes[a]
  }

  lemma RingsTell(m: Chunks, rings: RingMap, size: nat)
    requires RingInv(m, rings)
    ensures size in rings <==> exists a :: a in m && m[a].size == size
  {
    if size in rings {
      assert RingOk(m, size, rings[size]);
      assert Linked(m, size, rings[size], 0);
    }
    if a :| a in m && m[a].size == size {
      assert InRing(m, rings, a);
    }
  }

  lemma BinCount(m: Chunks, bins: seq<Addr>, depth: Depths)
    requires TreeInv(m, bins, depth)
    ensures |bins| == NTREEBINS
  {
  }

  lemma NodeSize(m: Chunks, bins: seq<Addr>, depth: Depths, t: Addr)
    requires TreeInv(m, bins, depth) && t in depth
    ensures t in m && m[t].size < WORD && depth[t] <= Width(m[t].index) <= SIZE_T_BITSIZE
  {
    NodeAt(m, bins, depth, t);
    IndexBound(m[t].size);
  }

  lemma KidOf(m: Chunks, bins: seq<Addr>, depth: Depths, t: Addr, b: nat)
    requires TreeInv(m, bins, depth) && t in depth && t in m && b < 2
    ensures var k := Child(m[t], b);
            k != 0 ==> k in depth && k in m && m[k].index == m[t].index && depth[k] == depth[t] + 1 <= SIZE_T_BITSIZE
  {
    hide TreeInv;
    if Child(m[t], b) != 0 {
      KidPath(m, bins, depth, t, b);
      NodeSize(m, bins, depth, Child(m[t], b));
    }
  }

  /** The comparison of remainders as unsigned words never takes a chunk that is too small. */
  lemma Look(m: Chunks, depth: Depths, nb: nat, v: Addr, rsize: nat, t: Addr)
    requires Found(m, depth, nb, v, rsize) && t in depth && t in m && m[t].size < WORD && t != 0
    ensures var trem := Sub(m[t].size, nb);
            if trem < rsize then Found(m, depth, nb, t, trem) && NoBetter(m, nb, trem, t) else NoBetter(m, nb, rsize, t)
  {
  }

  lemma ExactSettles(m: Chunks, depth: Depths, t: Addr, nb: nat)
    ensures Left(m, depth, t, nb, 0)
  {
  }

  lemma NothingLeft(m: Chunks, depth: Depths, nb: nat, rsize: nat)
    requires Settled(m, depth, nb, rsize)
    ensures Left(m, depth, 0, nb, rsize)
  {
  }

  /** The sign bit of the shifted request is the bit the trie looks at. */
  lemma TakenBit(nb: nat, i: nat, d: nat)
    requires i < NTREEBINS
    ensures TopBit(Shl(nb, LeftShift(i) + d)) == Bit(nb, Width(i), d)
  {
    hide Shl, TopBit;
    if d < Width(i) {
      ShiftedBit(nb, Width(i), d);
    } else {
      ShiftedOut(nb, LeftShift(i) + d);
    }
  }

  lemma BestOfAll(m: Chunks, bins: seq<Addr>, marked: set<nat>, depth: Depths, rings: RingMap, nb: nat, v: Addr,
      rsize: nat)
    requires BinsOk(m, bins, marked, depth, rings) && Found(m, depth, nb, v, rsize) && Settled(m, depth, nb, rsize)
    ensures if v == 0 then forall a :: a in m ==> m[a].size < nb
            else BestFor(Sizes(m), nb, v) && rsize == m[v].size - nb
  {
    hide Large, Index, TreeInv, MapOk;
    forall a | a in m ensures NoBetter(m, nb, rsize, a) && m[a].size < WORD {
      assert InRing(m, rings, a);
      RingHead(m, bins, marked, depth, rings, m[a].size);
      var h := rings[m[a].size][0];
      assert NoBetter(m, nb, rsize, h);
      LargeWord(m, depth, rings, a);
    }
  }

  lemma LargeWord(m: Chunks, depth: Depths, rings: RingMap, a: Addr)
    requires HeadsOk(m, depth, rings) && a in m
    ensures m[a].size < WORD
  {
    assert HeadOk(m, depth, rings, a);
  }

  // ----- taking a chunk -----

  /** The chunk `v` serves a request of `nb`: it leaves the bins, and what is left over, if it
      makes a chunk, is binned. */
  predicate Taken(sizes: map<Addr, nat>, small: map<Addr, nat>, v: Addr, nb: nat, sizes': map<Addr, nat>,
      small': map<Addr, nat>) {
    && v in sizes && sizes[v] >= nb
    && var rest := sizes[v] - nb;
       if rest < MIN_CHUNK_SIZE then sizes' == sizes - {v} && small' == small
       else if rest < MIN_LARGE_SIZE then sizes' == sizes - {v} && small' == small[v + nb := rest]
       else sizes' == (sizes - {v})[v + nb := rest] && small' == small
  }

  lemma TakenOrderly(
    tree: map<Addr, nat>, small: map<Addr, nat>, victim: map<Addr, nat>, v: Addr, nb: nat,
    tree': map<Addr, nat>, small': map<Addr, nat>
  )
    requires AllOrderly(tree, small, victim) && v in tree && 0 < nb <= tree[v] && OnGrid(nb)
    requires Taken(tree, small, v, nb, tree', small')
    ensures AllOrderly(tree', small', victim)
  {
    hide OnePlace, OnGrid;
    PartsOf(tree, small, victim, v, nb);
    var rest := tree[v] - nb;
    var kept := tree - {v};
    if rest >= MIN_CHUNK_SIZE {
      OneMore(kept, small, victim, v + nb, rest);
    }
  }

  /** What taking the front of a chunk leaves, all in all. */
  lemma PartsOf(tree: map<Addr, nat>, small: map<Addr, nat>, victim: map<Addr, nat>, v: Addr, nb: nat)
    requires AllOrderly(tree, small, victim) && v in tree && 0 < nb <= tree[v] && OnGrid(nb)
    ensures OnePlace((tree - {v}) + small + victim)
    ensures nb < tree[v] ==>
      && v + nb !in tree && v + nb !in small && v + nb !in victim
      && OnePlace(((tree - {v}) + small + victim)[v + nb := tree[v] - nb])
  {
    hide Spaced, Bounded;
    var all := tree + small + victim;
    OneLess(tree, small, victim, v);
    ShrinkSpaced(all, v);
    if nb < tree[v] {
      PartSpaced(all, v, nb);
    }
  }

  /** The rest of the chunk `v` becomes the designated victim, and the old victim is binned. */
  lemma VictimTaken(tree: map<Addr, nat>, small: map<Addr, nat>, dv: Addr, dvsize: nat, v: Addr, nb: nat)
    requires AllOrderly(tree, small, Victim(dv, dvsize)) && v in tree && 0 < nb <= tree[v] && OnGrid(nb)
    ensures var rest := tree[v] - nb;
            if rest < MIN_CHUNK_SIZE then AllOrderly(tree - {v}, small, Victim(dv, dvsize))
            else AllOrderly(tree - {v}, if dvsize != 0 then small[dv := dvsize] else small, Victim(v + nb, rest))
    ensures dvsize != 0 ==> dv !in small && OnGrid(dvsize)
  {
    if dvsize != 0 {
      VictimOnGrid(tree, small, dv, dvsize);
    }
    hide OnePlace, OnGrid;
    PartsOf(tree, small, Victim(dv, dvsize), v, nb);
    if tree[v] - nb >= MIN_CHUNK_SIZE {
      Rebinned(tree - {v}, small, dv, dvsize, v + nb, tree[v] - nb);
    }
  }

  /** The old victim goes into its bin and a new one takes its place: all in all one chunk more. */
  lemma Rebinned(tree: map<Addr, nat>, small: map<Addr, nat>, dv: Addr, dvsize: nat, r: Addr, rest: nat)
    requires rest > 0 && r !in tree && r !in small && r !in Victim(dv, dvsize) && tree.Keys !! small.Keys
    requires Victim(dv, dvsize).Keys !! tree.Keys && Victim(dv, dvsize).Keys !! small.Keys
    ensures var small' := if dvsize != 0 then small[dv := dvsize] else small;
            && tree.Keys !! small'.Keys && Victim(r, rest).Keys !! tree.Keys && Victim(r, rest).Keys !! small'.Keys
            && tree + small' + Victim(r, rest) == (tree + small + Victim(dv, dvsize))[r := rest]
  {
    if dvsize != 0 {
      assert dv in Victim(dv, dvsize);
      assert tree + small[dv := dvsize] + Victim(r, rest) == (tree + small + Victim(dv, dvsize))[r := rest];
    } else {
      assert tree + small + Victim(r, rest) == (tree + small + Victim(dv, dvsize))[r := rest];
    }
  }

  lemma VictimOnGrid(tree: map<Addr, nat>, small: map<Addr, nat>, dv: Addr, dvsize: nat)
    requires AllOrderly(tree, small, Victim(dv, dvsize)) && dvsize != 0
    ensures dv !in small && dv !in tree && OnGrid(dvsize)
  {
    hide Spaced;
    var all := tree + small + Victim(dv, dvsize);
    assert dv in Victim(dv, dvsize) && all[dv] == dvsize;
  }

  lemma ShrinkSpaced(all: map<Addr, nat>, v: Addr)
    requires Spaced(all)
    ensures Spaced(all - {v})
  {
  }

  /** The back part of a chunk is beside all others. */
  lemma PartSpaced(all: map<Addr, nat>, v: Addr, nb: nat)
    requires Spaced(all) && v in all && 0 < nb < all[v]
    ensures v + nb !in all
    ensures Spaced((all - {v})[v + nb := all[v] - nb])
  {
    var r := v + nb;
    forall a | a in all && a != v ensures a != r {
      assert Disjoint(v, all[v], a, all[a]);
    }
    var all' := (all - {v})[r := all[v] - nb];
    forall a, b | a in all' && b in all' && a != b ensures Disjoint(a, all'[a], b, all'[b]) {
      var a0, b0 := if a == r then v else a, if b == r then v else b;
      assert Disjoint(a0, all[a0], b0, all[b0]);
    }
  }

  lemma SizesKeys(m: Chunks)
    ensures Sizes(m).Keys == m.Keys
  {
  }

  lemma SmallestOfAll(m: Chunks, nb: nat, v: Addr)
    requires Bounded(Sizes(m)) && nb < MIN_LARGE_SIZE && BestFor(Sizes(m), nb, v)
    ensures v in m && forall a :: a in m ==> m[v].size <= m[a].size
  {
    forall a | a in m ensures Sizes(m)[v] <= Sizes(m)[a] {
      assert Sizes(m)[a] >= MIN_LARGE_SIZE;
    }
  }

  /** The comparison of remainders, as unsigned words, says whether the designated victim `dvs`
      fits at least as well. */
  lemma VictimFits(m: Chunks, nb: nat, v: Addr, dvs: nat)
    requires MIN_LARGE_SIZE <= nb < WORD && dvs < WORD && Bounded(Sizes(m))
    requires if v == 0 then forall a :: a in m ==> m[a].size < nb else BestFor(Sizes(m), nb, v)
    ensures v != 0 ==> v in m && m[v].size >= nb
    ensures v == 0 || !(m[v].size - nb < Sub(dvs, nb)) <==> forall a :: a in m ==>
            m[a].size < nb || nb <= dvs <= m[a].size
  {
    if v != 0 {
      assert Sizes(m)[v] < SIZE_LIMIT;
      if !(m[v].size - nb < Sub(dvs, nb)) {
        forall a | a in m ensures m[a].size < nb || nb <= dvs <= m[a].size {
          assert Sizes(m)[a] >= nb ==> Sizes(m)[v] <= Sizes(m)[a];
        }
      }
    }
  }

  /** With all chunks below the limit, a request has the right bin or nothing fits. */
  lemma Requested(m: Chunks, nb: nat)
    requires Bounded(Sizes(m)) && MIN_LARGE_SIZE <= nb < WORD
    ensures Large(nb) || forall a :: a in m ==> m[a].size < nb
    ensures forall a :: a in m ==> a in Sizes(m) && m[a].size == Sizes(m)[a] < SIZE_LIMIT
  {
    RightBinIff(nb);
    forall a | a in m ensures a in Sizes(m) && m[a].size == Sizes(m)[a] < SIZE_LIMIT {
    }
  }

  lemma Member(m: Chunks, rings: RingMap, a: Addr)
    requires RingInv(m, rings) && a in m
    ensures a != 0
  {
    assert InRing(m, rings, a);
    var r := rings[m[a].size];
    var k :| 0 <= k < |r| && r[k] == a;
    assert RingOk(m, m[a].size, r);
    assert Linked(m, m[a].size, r, k);
  }

  /** Everything in the bins is at or above the root of the least bin. */
  lemma LeastBin(m: Chunks, bins: seq<Addr>, marked: set<nat>, depth: Depths, nb: nat, i: nat, rsize: nat)
    requires TreeInv(m, bins, depth) && MapOk(bins, marked) && nb < MIN_LARGE_SIZE
    requires i in marked && forall j :: j in marked ==> i <= j
    ensures i < |bins| && bins[i] in m && Left(m, depth, bins[i], nb, rsize)
  {
    hide Index, TreeInv, Width, Prefix, PrefixAbove, RightBin, SamePath;
    var t := bins[i];
    RootAt(m, bins, depth, i);
    forall a | InSub(m, depth, t, a) ensures a in m && m[a].size >= nb {
      NodeAt(m, bins, depth, a);
    }
    forall a | a in depth && a in m ensures Open(m, depth, t, nb, rsize, a) {
      NodeAt(m, bins, depth, a);
      HasRoot(m, bins, depth, a);
      if m[a].index == i {
        RootPath(m[t].size, m[a].size);
      }
    }
  }

  /** With no bin marked there is no chunk. */
  lemma EmptyMap(m: Chunks, bins: seq<Addr>, marked: set<nat>, depth: Depths, rings: RingMap)
    requires BinsOk(m, bins, marked, depth, rings) && marked == {}
    ensures m == map[] && Sizes(m) == map[]
  {
    hide Large, Index, TreeInv;
    forall a ensures a !in m {
      if a in m {
        assert InRing(m, rings, a);
        RingHead(m, bins, marked, depth, rings, m[a].size);
        HasRoot(m, bins, depth, rings[m[a].size][0]);
        assert false;
      }
    }
  }
}

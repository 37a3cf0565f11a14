/** Why the search of the tree bins finds a best fit. */
module BestFit {
  import opened MallocUnits
  import opened TreeIndex
  import opened TrieBits
  import opened Trie
  import opened Rings
  import opened TreeBins

  /** Subtraction of unsigned words. */
  function Sub(a: nat, b: nat): (r: nat)
    requires a < WORD && b < WORD
    ensures r < WORD
  {
    if a >= b then a - b else WORD + a - b
  }

  /** `v` is what was found so far, and leaves `rsize` bytes over; with nothing found `rsize`
      is larger than any remainder can be. */
  predicate Found(m: Chunks, depth: Depths, nb: nat, v: Addr, rsize: nat) {
    && 0 < nb < WORD
    && if v == 0 then rsize == WORD - nb else v in depth && v in m && nb <= m[v].size < WORD && rsize == m[v].size - nb
  }

  /** The node `a` does not fit better than what leaves `rsize` over. */
  predicate NoBetter(m: Chunks, nb: nat, rsize: nat, a: Addr)
    requires a in m
  {
    m[a].size < nb || m[a].size - nb >= rsize
  }

  ghost predicate Settled(m: Chunks, depth: Depths, nb: nat, rsize: nat) {
    forall a :: a in depth && a in m ==> NoBetter(m, nb, rsize, a)
  }

  /** `a` is in the trie below `t`, or is `t`. */
  predicate InSub(m: Chunks, depth: Depths, t: Addr, a: Addr) {
    && t in depth && a in depth && t in m && a in m && m[t].index == m[a].index && depth[t] <= depth[a]
    && SamePath(m[t].size, m[a].size, Width(m[t].index), depth[t])
  }

  predicate PrefixAbove(s: nat, t: nat, w: nat, d: nat) {
    d <= w && Prefix(s, w, d) > Prefix(t, w, d)
  }

  /** `a` is larger than everything below `t`. */
  predicate Above(m: Chunks, depth: Depths, t: Addr, a: Addr) {
    && t in depth && t in m && a in m
    && (m[a].index > m[t].index
        || (m[a].index == m[t].index && PrefixAbove(m[a].size, m[t].size, Width(m[t].index), depth[t])))
  }

  /** Everything below `t` is large enough. */
  ghost predicate AllFit(m: Chunks, depth: Depths, t: Addr, nb: nat) {
    forall a :: InSub(m, depth, t, a) ==> a in m && m[a].size >= nb
  }

  predicate Open(m: Chunks, depth: Depths, t: Addr, nb: nat, rsize: nat, a: Addr)
    requires a in m
  {
    NoBetter(m, nb, rsize, a) || InSub(m, depth, t, a) || Above(m, depth, t, a)
  }

  /** What is left to be looked at is below `t`. */
  ghost predicate Left(m: Chunks, depth: Depths, t: Addr, nb: nat, rsize: nat) {
    || Settled(m, depth, nb, rsize)
    || (t != 0 && t in depth && t in m && AllFit(m, depth, t, nb)
        && forall a :: a in depth && a in m ==> Open(m, depth, t, nb, rsize, a))
  }

  // ----- facts about the order -----

  lemma AboveLarger(m: Chunks, bins: seq<Addr>, depth: Depths, t: Addr, a: Addr)
    requires TreeInv(m, bins, depth) && a in depth && Above(m, depth, t, a)
    ensures m[a].size > m[t].size
  {
    NodeAt(m, bins, depth, a);
    NodeAt(m, bins, depth, t);
    hide TreeInv, Index, Width, MinSize, Prefix;
    if m[a].index > m[t].index {
      BinsOrdered(m[t].size, m[a].size);
    } else {
      GreaterSize(m[a].size, m[t].size, Width(m[t].index), depth[t]);
    }
  }

  lemma SubSelf(m: Chunks, bins: seq<Addr>, depth: Depths, t: Addr)
    requires TreeInv(m, bins, depth) && t in depth
    ensures InSub(m, depth, t, t)
  {
    NodeAt(m, bins, depth, t);
    ReflexivePath(m[t].size, Width(m[t].index), depth[t]);
  }

  /** Looking at `t` settles it, and everything larger than its subtree. */
  lemma VisitSettles(m: Chunks, bins: seq<Addr>, depth: Depths, t: Addr, nb: nat, rsize: nat, a: Addr)
    requires TreeInv(m, bins, depth) && t in depth && t in m && a in depth && a in m
    requires NoBetter(m, nb, rsize, t) && m[t].size >= nb
    requires a == t || Above(m, depth, t, a)
    ensures NoBetter(m, nb, rsize, a)
  {
    if a != t {
      AboveLarger(m, bins, depth, t, a);
    }
  }

  /** What is properly below `t` is below the child its bit says. */
  lemma SubSplit(m: Chunks, bins: seq<Addr>, depth: Depths, t: Addr, a: Addr) returns (b: nat)
    requires TreeInv(m, bins, depth) && InSub(m, depth, t, a) && a != t
    ensures b < 2 && depth[t] < Width(m[t].index) && b == Bit(m[a].size, Width(m[t].index), depth[t])
    ensures Child(m[t], b) != 0 && InSub(m, depth, Child(m[t], b), a)
  {
    hide Large, Index, Width, Prefix, Bit, TreeInv;
    if depth[t] == depth[a] {
      Unique(m, bins, depth, t, a);
    }
    b := Bit(m[a].size, Width(m[t].index), depth[t]);
    var c := Below(m, bins, depth, t, a);
    NodeAt(m, bins, depth, a);
  }

  lemma SubOfKid(m: Chunks, bins: seq<Addr>, depth: Depths, t: Addr, b: nat, a: Addr)
    requires TreeInv(m, bins, depth) && t in depth && t in m && b < 2 && Child(m[t], b) != 0
    requires InSub(m, depth, Child(m[t], b), a)
    ensures InSub(m, depth, t, a)
  {
    hide Large, Index, Width, Prefix, Bit, TreeInv;
    var k := Child(m[t], b);
    KidPath(m, bins, depth, t, b);
    PathUp(m[k].size, m[a].size, Width(m[t].index), depth[t], depth[k]);
    PathJoin(m[t].size, m[k].size, m[a].size, Width(m[t].index), depth[t]);
  }

  /** What is below the right child is larger than everything below the left one. */
  lemma RightAboveLeft(m: Chunks, bins: seq<Addr>, depth: Depths, t: Addr, a: Addr)
    requires TreeInv(m, bins, depth) && t in depth && t in m && m[t].child0 != 0
    requires InSub(m, depth, t, a) && depth[t] < Width(m[t].index) && Bit(m[a].size, Width(m[t].index), depth[t]) == 1
    ensures Above(m, depth, m[t].child0, a)
  {
    hide Large, Index, Width, Bit, TreeInv, Prefix;
    var k, w, d := m[t].child0, Width(m[t].index), depth[t];
    KidPath(m, bins, depth, t, 0);
    PrefixStep(m[k].size, w, d);
    PrefixStep(m[a].size, w, d);
  }

  // ----- the scan down the leftmost path -----

  function Leftmost(c: TChunk): Addr {
    if c.child0 != 0 then c.child0 else c.child1
  }

  /** One step of the scan. */
  lemma ScanStep(m: Chunks, bins: seq<Addr>, depth: Depths, t: Addr, nb: nat, before: nat, rsize: nat)
    requires TreeInv(m, bins, depth) && t in depth && t in m && Left(m, depth, t, nb, before)
    requires rsize <= before && NoBetter(m, nb, rsize, t)
    ensures Left(m, depth, Leftmost(m[t]), nb, rsize)
    ensures Leftmost(m[t]) != 0 ==>
            Leftmost(m[t]) in depth && Leftmost(m[t]) in m && depth[Leftmost(m[t])] == depth[t] + 1
  {
    hide TreeInv, SamePath, InSub, Above, Large, Index, Width, Bit;
    var k := Leftmost(m[t]);
    if k != 0 {
      KidPath(m, bins, depth, t, if m[t].child0 != 0 then 0 else 1);
    }
    if !Settled(m, depth, nb, before) {
      SubSelf(m, bins, depth, t);
      forall a | a in depth && a in m ensures NoBetter(m, nb, rsize, a) || (k != 0 && Open(m, depth, k, nb, rsize, a)) {
        ScanOpen(m, bins, depth, t, nb, before, rsize, a);
      }
      if k != 0 {
        forall a | InSub(m, depth, k, a) ensures a in m && m[a].size >= nb {
          SubOfKid(m, bins, depth, t, if m[t].child0 != 0 then 0 else 1, a);
        }
      }
    }
  }

  lemma ScanOpen(m: Chunks, bins: seq<Addr>, depth: Depths, t: Addr, nb: nat, before: nat, rsize: nat, a: Addr)
    requires TreeInv(m, bins, depth) && t in depth && t in m && a in depth && a in m
    requires rsize <= before && NoBetter(m, nb, rsize, t) && m[t].size >= nb && Open(m, depth, t, nb, before, a)
    ensures NoBetter(m, nb, rsize, a) || (Leftmost(m[t]) != 0 && Open(m, depth, Leftmost(m[t]), nb, rsize, a))
  {
    hide TreeInv, SamePath, InSub, Above, Large, Index, Width, Bit;
    if !NoBetter(m, nb, rsize, a) {
      if a == t || Above(m, depth, t, a) {
        VisitSettles(m, bins, depth, t, nb, rsize, a);
      } else {
        var b := SubSplit(m, bins, depth, t, a);
        if b == 1 && m[t].child0 != 0 {
          RightAboveLeft(m, bins, depth, t, a);
        }
      }
    }
  }

  // ----- the way down the bin of the request -----

  /** The path of `nb` leads to `t`. */
  predicate OnPath(m: Chunks, depth: Depths, t: Addr, nb: nat) {
    t in depth && t in m && m[t].index == Index(nb) && SamePath(m[t].size, nb, Width(Index(nb)), depth[t])
  }

  /** `rst` is a right subtree off the path of `nb`, at depth `d` at most. */
  ghost predicate OffPath(m: Chunks, depth: Depths, rst: Addr, nb: nat, d: nat) {
    && rst in depth && rst in m && m[rst].index == Index(nb) && depth[rst] <= d
    && AllFit(m, depth, rst, nb) && PrefixAbove(m[rst].size, nb, Width(Index(nb)), depth[rst])
  }

  predicate BinOpen(m: Chunks, depth: Depths, t: Addr, rst: Addr, nb: nat, rsize: nat, a: Addr)
    requires a in m
  {
    || NoBetter(m, nb, rsize, a)
    || (t != 0 && InSub(m, depth, t, a))
    || (rst != 0 && (InSub(m, depth, rst, a) || Above(m, depth, rst, a)))
  }

  ghost predicate BinLeft(m: Chunks, depth: Depths, t: Addr, rst: Addr, nb: nat, rsize: nat) {
    forall a :: a in depth && a in m && m[a].index == Index(nb) ==> BinOpen(m, depth, t, rst, nb, rsize, a)
  }

  /** The deepest untaken right subtree and what is below `t` hold all that may fit better. */
  ghost predicate Descent(m: Chunks, depth: Depths, t: Addr, rst: Addr, nb: nat, rsize: nat, d: nat) {
    || Settled(m, depth, nb, rsize)
    || (&& Large(nb)
        && (t != 0 ==> OnPath(m, depth, t, nb) && depth[t] == d)
        && (rst != 0 ==> OffPath(m, depth, rst, nb, d))
        && BinLeft(m, depth, t, rst, nb, rsize))
  }

  /** What the loop takes for the deepest untaken right subtree after the node `c`. */
  function Untaken(c: TChunk, b: nat, rst: Addr): Addr {
    if c.child1 != 0 && c.child1 != Child(c, b) then c.child1 else rst
  }

  lemma DescentStart(m: Chunks, bins: seq<Addr>, depth: Depths, nb: nat, rsize: nat)
    requires TreeInv(m, bins, depth) && nb > 0 && (Large(nb) || forall a :: a in m ==> m[a].size < nb)
    requires Index(nb) < |bins|
    ensures Descent(m, depth, bins[Index(nb)], 0, nb, rsize, 0)
    ensures bins[Index(nb)] != 0 ==> bins[Index(nb)] in depth && bins[Index(nb)] in m && depth[bins[Index(nb)]] == 0
  {
    hide Large, Index, Width, Prefix, Bit, TreeInv;
    var t := bins[Index(nb)];
    if t != 0 {
      RootAt(m, bins, depth, Index(nb));
    }
    if Large(nb) {
      forall a | a in depth && a in m && m[a].index == Index(nb) ensures BinOpen(m, depth, t, 0, nb, rsize, a) {
        HasRoot(m, bins, depth, a);
        NodeAt(m, bins, depth, a);
        RootPath(m[t].size, m[a].size);
      }
      if t != 0 {
        RootPath(m[t].size, nb);
      }
    }
  }

  lemma RootAt(m: Chunks, bins: seq<Addr>, depth: Depths, i: nat)
    requires TreeInv(m, bins, depth) && i < |bins| && bins[i] != 0
    ensures bins[i] in depth && bins[i] in m && m[bins[i]].index == i && depth[bins[i]] == 0
    ensures Large(m[bins[i]].size) && m[bins[i]].index == Index(m[bins[i]].size)
  {
    NodeAt(m, bins, depth, bins[i]);
  }

  lemma DescentStep(m: Chunks, bins: seq<Addr>, depth: Depths, t: Addr, rst: Addr, nb: nat, before: nat, rsize: nat)
    requires TreeInv(m, bins, depth) && t != 0 && t in depth && t in m
             && Descent(m, depth, t, rst, nb, before, depth[t])
    requires rsize <= before && NoBetter(m, nb, rsize, t)
    ensures var b := Bit(nb, Width(Index(nb)), depth[t]);
            Descent(m, depth, Child(m[t], b), Untaken(m[t], b, rst), nb, rsize, depth[t] + 1)
  {
    hide Large, Index, Width, Prefix, Bit, TreeInv, SamePath, InSub, Above, PrefixAbove;
    if !Settled(m, depth, nb, before) && Large(nb) {
      var b := Bit(nb, Width(Index(nb)), depth[t]);
      var k, rst' := Child(m[t], b), Untaken(m[t], b, rst);
      if k != 0 {
        PathKid(m, bins, depth, t, nb);
      }
      if rst' != 0 {
        if rst' == m[t].child1 && b == 0 {
          UntakenKid(m, bins, depth, t, nb);
        }
      }
      forall a | a in depth && a in m && m[a].index == Index(nb) ensures BinOpen(m, depth, k, rst', nb, rsize, a) {
        DescentOpen(m, bins, depth, t, rst, nb, before, rsize, a);
      }
    }
  }

  /** The taken child is on the path. */
  lemma PathKid(m: Chunks, bins: seq<Addr>, depth: Depths, t: Addr, nb: nat)
    requires TreeInv(m, bins, depth) && t != 0 && OnPath(m, depth, t, nb)
    requires Child(m[t], Bit(nb, Width(Index(nb)), depth[t])) != 0
    ensures var k := Child(m[t], Bit(nb, Width(Index(nb)), depth[t]));
            OnPath(m, depth, k, nb) && depth[k] == depth[t] + 1
  {
    hide Large, Index, Width, Prefix, Bit, TreeInv, SamePath;
    var b := Bit(nb, Width(Index(nb)), depth[t]);
    KidPath(m, bins, depth, t, b);
    KidWidth(m, bins, depth, t, b);
    ThroughKid(m[t].size, m[Child(m[t], b)].size, nb, Width(Index(nb)), depth[t]);
  }

  lemma KidWidth(m: Chunks, bins: seq<Addr>, depth: Depths, t: Addr, b: nat)
    requires TreeInv(m, bins, depth) && t in depth && t in m && b < 2 && Child(m[t], b) != 0
    ensures depth[t] < Width(m[t].index)
  {
    hide Large, Index, Width, Prefix, Bit, SamePath;
    NodeAt(m, bins, depth, t);
    NodeAt(m, bins, depth, Child(m[t], b));
    hide TreeInv;
    assert KidOk(m, depth, t, b);
  }

  /** A right child that is not taken holds only larger sizes. */
  lemma UntakenKid(m: Chunks, bins: seq<Addr>, depth: Depths, t: Addr, nb: nat)
    requires TreeInv(m, bins, depth) && t != 0 && OnPath(m, depth, t, nb)
    requires m[t].child1 != 0 && Bit(nb, Width(Index(nb)), depth[t]) == 0
    ensures OffPath(m, depth, m[t].child1, nb, depth[t] + 1) && depth[m[t].child1] == depth[t] + 1
  {
    hide Large, Index, Width, Bit, TreeInv, Prefix;
    var k, w, d := m[t].child1, Width(Index(nb)), depth[t];
    KidPath(m, bins, depth, t, 1);
    KidWidth(m, bins, depth, t, 1);
    PrefixStep(m[k].size, w, d);
    PrefixStep(nb, w, d);
    forall a | InSub(m, depth, k, a) ensures a in m && m[a].size >= nb {
      GreaterSize(m[a].size, nb, w, d + 1);
    }
  }

  lemma DescentOpen(m: Chunks, bins: seq<Addr>, depth: Depths, t: Addr, rst: Addr, nb: nat, before: nat, rsize: nat,
      a: Addr)
    requires TreeInv(m, bins, depth) && t != 0 && OnPath(m, depth, t, nb) && a in depth && a in m
             && m[a].index == Index(nb)
    requires (rst != 0 ==> OffPath(m, depth, rst, nb, depth[t])) && BinOpen(m, depth, t, rst, nb, before, a)
    requires rsize <= before && NoBetter(m, nb, rsize, t)
    ensures var b := Bit(nb, Width(Index(nb)), depth[t]);
            BinOpen(m, depth, Child(m[t], b), Untaken(m[t], b, rst), nb, rsize, a)
  {
    hide Large, Index, Width, Prefix, Bit, TreeInv, SamePath, InSub, Above, PrefixAbove;
    var b := Bit(nb, Width(Index(nb)), depth[t]);
    if NoBetter(m, nb, rsize, a) {
    } else if InSub(m, depth, t, a) {
      var c := SubSplit(m, bins, depth, t, a);
      if c == b {
      } else if c == 0 {
        SmallerSide(m, depth, t, nb, a);
      } else {
        KidsDiffer(m, bins, depth, t);
      }
    } else if m[t].child1 != 0 && b == 0 {
      KidsDiffer(m, bins, depth, t);
      StillAbove(m, bins, depth, t, rst, nb, a);
    }
  }

  /** What is left of the path is too small. */
  lemma SmallerSide(m: Chunks, depth: Depths, t: Addr, nb: nat, a: Addr)
    requires OnPath(m, depth, t, nb) && InSub(m, depth, t, a) && depth[t] < Width(Index(nb))
    requires Bit(m[a].size, Width(Index(nb)), depth[t]) == 0 && Bit(nb, Width(Index(nb)), depth[t]) == 1
    ensures m[a].size < nb
  {
    hide Large, Index, Width, Bit, Prefix;
    var w, d := Width(Index(nb)), depth[t];
    PrefixStep(m[a].size, w, d);
    PrefixStep(nb, w, d);
    GreaterSize(nb, m[a].size, w, d + 1);
  }

  lemma KidsDiffer(m: Chunks, bins: seq<Addr>, depth: Depths, t: Addr)
    requires TreeInv(m, bins, depth) && t in depth && t in m
    ensures m[t].child0 == 0 || m[t].child0 != m[t].child1
  {
    hide Large, Index, Width, Prefix, Bit, TreeInv, SamePath;
    if m[t].child0 != 0 && m[t].child1 != 0 {
      KidPath(m, bins, depth, t, 0);
      KidPath(m, bins, depth, t, 1);
    }
  }

  /** What was at or above the old right subtree is above the new, deeper one. */
  lemma StillAbove(m: Chunks, bins: seq<Addr>, depth: Depths, t: Addr, rst: Addr, nb: nat, a: Addr)
    requires TreeInv(m, bins, depth) && OnPath(m, depth, t, nb) && a in depth && a in m && m[a].index == Index(nb)
    requires OffPath(m, depth, rst, nb, depth[t]) && (InSub(m, depth, rst, a) || Above(m, depth, rst, a))
    requires m[t].child1 != 0
    ensures Above(m, depth, m[t].child1, a)
  {
    hide Large, Index, Width, Bit, TreeInv, Prefix;
    var k, w, d := m[t].child1, Width(Index(nb)), depth[t];
    KidPath(m, bins, depth, t, 1);
    KidWidth(m, bins, depth, t, 1);
    PrefixGreater(m[a].size, nb, w, depth[rst], d);
    PrefixGreater(m[a].size, m[k].size, w, d, d + 1);
  }

  // ----- after the way down -----

  /** With a right subtree left over, what may fit better is below it. */
  lemma DescentLeft(m: Chunks, bins: seq<Addr>, depth: Depths, rst: Addr, nb: nat, rsize: nat, d: nat)
    requires TreeInv(m, bins, depth) && Descent(m, depth, 0, rst, nb, rsize, d) && rst != 0
    ensures Left(m, depth, rst, nb, rsize)
  {
    hide Large, Index, TreeInv, Width, Prefix, InSub, PrefixAbove, MinSize;
    if !Settled(m, depth, nb, rsize) {
      forall a | a in depth && a in m ensures Open(m, depth, rst, nb, rsize, a) {
        NodeAt(m, bins, depth, a);
        if m[a].index < Index(nb) {
          SmallerBin(m[a].size, nb);
        } else if m[a].index == Index(nb) {
          assert BinOpen(m, depth, 0, rst, nb, rsize, a);
        }
      }
    }
  }

  lemma SmallerBin(s: nat, t: nat)
    requires Large(s) && Large(t) && Index(s) < Index(t)
    ensures s < t
  {
    BinsOrdered(s, t);
  }

  /** With nothing left of the bin and something found in it, everything is settled. */
  lemma DescentSettled(m: Chunks, bins: seq<Addr>, depth: Depths, nb: nat, v: Addr, rsize: nat, d: nat)
    requires TreeInv(m, bins, depth) && Descent(m, depth, 0, 0, nb, rsize, d) && Found(m, depth, nb, v, rsize)
    requires v != 0 && m[v].index == Index(nb)
    ensures Settled(m, depth, nb, rsize)
  {
    hide Large, Index, TreeInv, Width, Prefix, InSub, PrefixAbove, MinSize;
    if !Settled(m, depth, nb, rsize) {
      NodeAt(m, bins, depth, v);
      forall a | a in depth && a in m ensures NoBetter(m, nb, rsize, a) {
        NodeAt(m, bins, depth, a);
        if m[a].index < Index(nb) {
          SmallerBin(m[a].size, nb);
        } else if m[a].index == Index(nb) {
          assert BinOpen(m, depth, 0, 0, nb, rsize, a);
        } else {
          SmallerBin(m[v].size, m[a].size);
        }
      }
    }
  }

  /** The least bin that is marked and larger than `idx`, if there is one. */
  predicate NextMarked(marked: set<nat>, idx: nat, i: nat) {
    i in marked && i > idx && forall j :: j in marked && j > idx ==> i <= j
  }

  /** With nothing found in the bin, the next one that is not empty holds the best fit. */
  lemma NextBin(m: Chunks, bins: seq<Addr>, marked: set<nat>, depth: Depths, nb: nat, rsize: nat, d: nat, i: nat)
    requires TreeInv(m, bins, depth) && MapOk(bins, marked) && Descent(m, depth, 0, 0, nb, rsize, d)
    requires NextMarked(marked, Index(nb), i) && Found(m, depth, nb, 0, rsize)
    ensures i < |bins| && bins[i] != 0 && bins[i] in depth && bins[i] in m && Left(m, depth, bins[i], nb, rsize)
  {
    hide Large, Index, TreeInv, Width, Prefix, PrefixAbove, MinSize, SamePath;
    var t := bins[i];
    RootAt(m, bins, depth, i);
    if !Settled(m, depth, nb, rsize) {
      forall a | InSub(m, depth, t, a) ensures a in m && m[a].size >= nb {
        NodeAt(m, bins, depth, a);
        SmallerBin(nb, m[a].size);
      }
      forall a | a in depth && a in m ensures Open(m, depth, t, nb, rsize, a) {
        NodeAt(m, bins, depth, a);
        HasRoot(m, bins, depth, a);
        if m[a].index < Index(nb) {
          SmallerBin(m[a].size, nb);
        } else if m[a].index == Index(nb) {
          assert BinOpen(m, depth, 0, 0, nb, rsize, a);
        } else if m[a].index == i {
          RootPath(m[t].size, m[a].size);
        }
      }
    }
  }

  lemma NoNextBin(m: Chunks, bins: seq<Addr>, marked: set<nat>, depth: Depths, nb: nat, rsize: nat, d: nat)
    requires TreeInv(m, bins, depth) && MapOk(bins, marked) && Descent(m, depth, 0, 0, nb, rsize, d)
    requires forall j :: j in marked ==> j <= Index(nb)
    ensures Settled(m, depth, nb, rsize)
  {
    hide Large, Index, TreeInv, Width, Prefix, PrefixAbove, MinSize, SamePath;
    if !Settled(m, depth, nb, rsize) {
      forall a | a in depth && a in m ensures NoBetter(m, nb, rsize, a) {
        NodeAt(m, bins, depth, a);
        HasRoot(m, bins, depth, a);
        if m[a].index < Index(nb) {
          SmallerBin(m[a].size, nb);
        } else {
          assert BinOpen(m, depth, 0, 0, nb, rsize, a);
        }
      }
    }
  }
}

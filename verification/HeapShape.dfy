/**
 The chunks of the one segment of an allocator space, as their heads and feet lay them
 out: which addresses are chunks, how large they are, and which of them are in use.
 Only the heads at the addresses of chunks matter, and they are what `heads` holds.
 */
module HeapShape {
  import opened MallocUnits

  lemma GridSum(a: nat, b: nat)
    requires OnGrid(a) && OnGrid(b)
    ensures OnGrid(a + b)
  {
  }

  lemma GridDifference(a: nat, b: nat)
    requires OnGrid(a) && OnGrid(b) && a <= b
    ensures OnGrid(b - a)
  {
  }

  /** A head word: the size, and the bits saying whether the chunk before and the chunk itself
      are in use. */
  datatype Head = Head(size: nat, pinuse: bool, cinuse: bool)

  /** `foots[a]` is the `prev_foot` field at `a`: while the chunk before `a` is free, its size. */
  datatype Layout = Layout(heads: map<Addr, Head>, foots: map<Addr, nat>, base: Addr, end: Addr, top: Addr)

  /** The chunk after `a`. */
  function NextOf(l: Layout, a: Addr): Addr
    requires a in l.heads
  {
    a + l.heads[a].size
  }

  predicate IsFree(l: Layout, a: Addr) {
    a in l.heads && !l.heads[a].cinuse
  }

  predicate InUse(l: Layout, a: Addr) {
    a in l.heads && l.heads[a].cinuse
  }

  /** The top chunk reaches to the end, and the chunk before it is in use. */
  predicate TopOk(l: Layout) {
    && l.top in l.heads && !l.heads[l.top].cinuse && l.heads[l.top].pinuse
    && l.heads[l.top].size > 0 && NextOf(l, l.top) == l.end
  }

  /** Any other chunk is followed by a chunk that knows whether it is in use. A free one is
      between chunks in use, and its size is at its foot. */
  predicate AheadOk(l: Layout, a: Addr)
    requires a in l.heads
  {
    var c, n := l.heads[a], NextOf(l, a);
    && c.size >= MIN_CHUNK_SIZE && OnGrid(c.size)
    && n in l.heads && l.heads[n].pinuse == c.cinuse
    && (!c.cinuse ==> c.pinuse && n != l.top && l.heads[n].cinuse && n in l.foots && l.foots[n] == c.size)
  }

  /** Where the chunk before is free, the foot leads to it. */
  predicate BehindOk(l: Layout, a: Addr)
    requires a in l.heads
  {
    !l.heads[a].pinuse ==>
      a in l.foots && l.foots[a] <= a && IsFree(l, a - l.foots[a]) && l.heads[a - l.foots[a]].size == l.foots[a]
  }

  predicate ChunkOk(l: Layout, a: Addr) {
    && a in l.heads && OnGrid(a) && l.base <= a < l.end
    && (if a == l.top then TopOk(l) else AheadOk(l, a))
    && BehindOk(l, a)
  }

  predicate Before(l: Layout, a: Addr, b: Addr)
    requires a in l.heads
  {
    NextOf(l, a) <= b
  }

  ghost predicate Apart(l: Layout) {
    forall a, b :: a in l.heads && b in l.heads && a < b ==> Before(l, a, b)
  }

  ghost predicate ShapeOk(l: Layout) {
    && l.base in l.heads && l.heads[l.base].pinuse && l.top in l.heads
    && Apart(l)
    && forall a :: a in l.heads ==> ChunkOk(l, a)
  }

  lemma ChunkAt(l: Layout, a: Addr)
    requires ShapeOk(l) && a in l.heads
    ensures ChunkOk(l, a)
  {
  }

  lemma BothEnds(l: Layout)
    requires ShapeOk(l)
    ensures l.base in l.heads && l.heads[l.base].pinuse && l.top in l.heads && TopOk(l)
  {
    ChunkAt(l, l.top);
  }

  lemma MakeShape(l: Layout)
    requires l.base in l.heads && l.heads[l.base].pinuse && l.top in l.heads && Apart(l)
    requires forall a :: a in l.heads ==> ChunkOk(l, a)
    ensures ShapeOk(l)
  {
  }

  lemma TwoApart(l: Layout, a: Addr, b: Addr)
    requires ShapeOk(l) && a in l.heads && b in l.heads && a < b
    ensures NextOf(l, a) <= b
  {
    assert Before(l, a, b);
  }

  /** The whole segment as one top chunk. */
  lemma FreshShape(base: Addr, end: Addr)
    requires OnGrid(base) && base < end
    ensures ShapeOk(Layout(map[base := Head(end - base, true, false)], map[], base, end, base))
  {
  }

  // ----- the segment is tiled -----

  /** Every address of the segment belongs to exactly one chunk. */
  lemma Tiled(l: Layout, x: Addr) returns (a: Addr)
    requires ShapeOk(l) && l.base <= x < l.end
    ensures a in l.heads && a <= x < NextOf(l, a)
    ensures forall b :: b in l.heads && b <= x < NextOf(l, b) ==> b == a
  {
    a := l.base;
    while NextOf(l, a) <= x
      invariant a in l.heads && a <= x
      decreases l.end - a
    {
      ChunkAt(l, a);
      a := NextOf(l, a);
    }
    forall b | b in l.heads && b <= x < NextOf(l, b) ensures b == a {
      if a < b {
        TwoApart(l, a, b);
      } else if b < a {
        TwoApart(l, b, a);
      }
    }
  }

  /** The top chunk is the last one. */
  lemma BelowTop(l: Layout, a: Addr)
    requires ShapeOk(l) && a in l.heads
    ensures a <= l.top && NextOf(l, a) <= l.end
  {
    ChunkAt(l, a);
    ChunkAt(l, l.top);
    if l.top < a {
      TwoApart(l, l.top, a);
    } else if a < l.top {
      TwoApart(l, a, l.top);
    }
  }

  /** Live payloads are aligned, within the segment, and do not reach into each other. A
      payload may use the foot field of the next chunk. */
  lemma Payloads(l: Layout, a: Addr, b: Addr)
    requires ShapeOk(l) && InUse(l, a) && InUse(l, b) && a < b
    ensures OnGrid(a + 16) && l.base <= a && a + 16 + (l.heads[a].size - 8) <= b + 16
    ensures NextOf(l, b) <= l.end
  {
    ChunkAt(l, a);
    TwoApart(l, a, b);
    BelowTop(l, b);
  }

  // ----- one chunk made of several -----

  function Kept(l: Layout, a: Addr, e: Addr): map<Addr, Head> {
    map b | b in l.heads && !(a < b < e) :: l.heads[b]
  }

  /** The chunks from `a` up to `e` become one free chunk. */
  function Coalesced(l: Layout, a: Addr, e: Addr): Layout
    requires a < e && e in l.heads
  {
    l.(heads := Kept(l, a, e)[a := Head(e - a, true, false)][e := l.heads[e].(pinuse := false)],
        foots := l.foots[e := e - a])
  }

  predicate CanCoalesce(l: Layout, a: Addr, e: Addr) {
    a in l.heads && e in l.heads && a < e && l.heads[a].pinuse && l.heads[e].cinuse
  }

  lemma CoalesceChunk(l: Layout, a: Addr, e: Addr, b: Addr)
    requires ShapeOk(l) && CanCoalesce(l, a, e) && b in Coalesced(l, a, e).heads
    ensures ChunkOk(Coalesced(l, a, e), b)
  {
    hide ShapeOk, OnGrid;
    ChunkAt(l, a);
    ChunkAt(l, e);
    ChunkAt(l, b);
    TwoApart(l, a, e);
    GridDifference(a, e);
    BelowTop(l, e);
    if b < a {
      TwoApart(l, b, a);
    } else if b > e {
      TwoApart(l, e, b);
    }
    if b != e {
      CoalesceBehind(l, a, e, b);
    }
  }

  lemma CoalesceBehind(l: Layout, a: Addr, e: Addr, b: Addr)
    requires ShapeOk(l) && CanCoalesce(l, a, e) && b in l.heads && !(a < b <= e)
    ensures b in Coalesced(l, a, e).heads && BehindOk(Coalesced(l, a, e), b)
  {
    hide ShapeOk, OnGrid;
    ChunkAt(l, b);
    if !l.heads[b].pinuse {
      var p := b - l.foots[b];
      ChunkAt(l, p);
      if p < e {
        TwoApart(l, p, e);
      }
      if p < a {
        TwoApart(l, p, a);
      }
    }
  }

  lemma CoalesceOk(l: Layout, a: Addr, e: Addr)
    requires ShapeOk(l) && CanCoalesce(l, a, e)
    ensures ShapeOk(Coalesced(l, a, e)) && IsFree(Coalesced(l, a, e), a) && Coalesced(l, a, e).heads[a].size == e - a
  {
    var l' := Coalesced(l, a, e);
    BelowTop(l, e);
    BaseFirst(l, a);
    TwoApart(l, a, e);
    hide ChunkOk, OnGrid;
    forall b | b in l'.heads ensures ChunkOk(l', b) {
      CoalesceChunk(l, a, e, b);
    }
    CoalesceApart(l, a, e);
    CoalesceEnds(l, a, e);
  }

  lemma CoalesceApart(l: Layout, a: Addr, e: Addr)
    requires ShapeOk(l) && CanCoalesce(l, a, e)
    ensures Apart(Coalesced(l, a, e))
  {
    hide ShapeOk;
    var l' := Coalesced(l, a, e);
    forall b, c | b in l'.heads && c in l'.heads && b < c ensures Before(l', b, c) {
      TwoApart(l, b, c);
    }
  }

  lemma CoalesceEnds(l: Layout, a: Addr, e: Addr)
    requires ShapeOk(l) && CanCoalesce(l, a, e)
    ensures var l' := Coalesced(l, a, e); l'.base in l'.heads && l'.heads[l'.base].pinuse && l'.top in l'.heads
  {
    BaseFirst(l, a);
    BelowTop(l, e);
    TopFree(l);
  }

  lemma TopFree(l: Layout)
    requires ShapeOk(l)
    ensures TopOk(l)
  {
    ChunkAt(l, l.top);
  }

  lemma BaseFirst(l: Layout, a: Addr)
    requires ShapeOk(l) && a in l.heads
    ensures l.base <= a
  {
    ChunkAt(l, a);
  }

  /** The chunks from `a` on become the top chunk. */
  function ToppedUp(l: Layout, a: Addr): Layout
    requires a <= l.end
  {
    l.(heads := Kept(l, a, l.end)[a := Head(l.end - a, true, false)], top := a)
  }

  lemma ToppedUpOk(l: Layout, a: Addr)
    requires ShapeOk(l) && a in l.heads && l.heads[a].pinuse
    ensures a < l.end && ShapeOk(ToppedUp(l, a))
  {
    hide OnGrid, ShapeOk, ChunkOk;
    BothEnds(l);
    Solid(l, a);
    BelowTop(l, a);
    BaseFirst(l, a);
    var l' := ToppedUp(l, a);
    forall b | b in l'.heads ensures ChunkOk(l', b) {
      ToppedChunk(l, a, b);
    }
    forall b, c | b in l'.heads && c in l'.heads && b < c ensures Before(l', b, c) {
      TwoApart(l, b, c);
    }
    MakeShape(l');
  }

  lemma ToppedChunk(l: Layout, a: Addr, b: Addr)
    requires ShapeOk(l) && a in l.heads && l.heads[a].pinuse && a < l.end && b in ToppedUp(l, a).heads
    ensures ChunkOk(ToppedUp(l, a), b)
  {
    hide OnGrid, ShapeOk;
    ChunkAt(l, a);
    ChunkAt(l, b);
    if b < a {
      TwoApart(l, b, a);
    }
  }

  // ----- a chunk split or taken -----

  /** The chunk `a`, in use, is cut after `nb` bytes; both parts are in use. */
  function Cut(l: Layout, a: Addr, nb: nat): Layout
    requires a in l.heads && nb <= l.heads[a].size
  {
    var c := l.heads[a];
    l.(heads := l.heads[a := c.(size := nb)][a + nb := Head(c.size - nb, true, true)])
  }

  predicate CanCut(l: Layout, a: Addr, nb: nat) {
    InUse(l, a) && MIN_CHUNK_SIZE <= nb && nb + MIN_CHUNK_SIZE <= l.heads[a].size && OnGrid(nb)
  }

  lemma CutChunk(l: Layout, a: Addr, nb: nat, b: Addr)
    requires ShapeOk(l) && CanCut(l, a, nb) && a + nb !in l.heads && b in Cut(l, a, nb).heads
    ensures ChunkOk(Cut(l, a, nb), b)
  {
    hide ShapeOk, OnGrid;
    ChunkAt(l, a);
    TopFree(l);
    GridSum(a, nb);
    GridDifference(nb, l.heads[a].size);
    var n := NextOf(l, a);
    ChunkAt(l, n);
    if b in l.heads {
      ChunkAt(l, b);
      if b < a {
        TwoApart(l, b, a);
      } else if a < b {
        TwoApart(l, a, b);
      }
      if b != l.top && NextOf(l, b) > a && a != b {
        assert NextOf(l, b) >= n;
      }
    }
  }

  lemma CutOk(l: Layout, a: Addr, nb: nat)
    requires ShapeOk(l) && CanCut(l, a, nb)
    ensures a + nb !in l.heads && ShapeOk(Cut(l, a, nb))
  {
    hide ChunkOk, OnGrid;
    var l' := Cut(l, a, nb);
    if a + nb in l.heads {
      TwoApart(l, a, a + nb);
    }
    forall b | b in l'.heads ensures ChunkOk(l', b) {
      CutChunk(l, a, nb, b);
    }
    CutApart(l, a, nb);
    TopFree(l);
  }

  lemma CutApart(l: Layout, a: Addr, nb: nat)
    requires ShapeOk(l) && CanCut(l, a, nb) && a + nb !in l.heads
    ensures Apart(Cut(l, a, nb))
  {
    hide ShapeOk;
    var l' := Cut(l, a, nb);
    forall b, c | b in l'.heads && c in l'.heads && b < c ensures Before(l', b, c) {
      if b in l.heads && c in l.heads {
        TwoApart(l, b, c);
      } else if b in l.heads && b != a {
        if b < a {
          TwoApart(l, b, a);
        } else {
          TwoApart(l, a, b);
        }
      } else if c in l.heads && a < c {
        TwoApart(l, a, c);
      }
    }
  }

  /** The free chunk `a` is taken into use. */
  function Occupied(l: Layout, a: Addr): Layout
    requires a in l.heads && NextOf(l, a) in l.heads
  {
    var n := NextOf(l, a);
    l.(heads := l.heads[a := l.heads[a].(cinuse := true)][n := l.heads[n].(pinuse := true)])
  }

  lemma OccupyOk(l: Layout, a: Addr)
    requires ShapeOk(l) && IsFree(l, a) && a != l.top
    ensures NextOf(l, a) in l.heads && ShapeOk(Occupied(l, a)) && l.heads[a].pinuse
  {
    hide OnGrid, ShapeOk, ChunkOk;
    BothEnds(l);
    FreeInside(l, a);
    var l' := Occupied(l, a);
    forall b | b in l'.heads ensures ChunkOk(l', b) {
      OccupyChunk(l, a, b);
    }
    forall b, c | b in l'.heads && c in l'.heads && b < c ensures Before(l', b, c) {
      TwoApart(l, b, c);
    }
    MakeShape(l');
  }

  lemma FreeInside(l: Layout, a: Addr)
    requires ShapeOk(l) && IsFree(l, a) && a != l.top
    ensures l.heads[a].pinuse && NextOf(l, a) != l.top && InUse(l, NextOf(l, a))
    ensures NextOf(l, a) in l.foots && l.foots[NextOf(l, a)] == l.heads[a].size >= MIN_CHUNK_SIZE
            && OnGrid(l.heads[a].size)
  {
    ChunkAt(l, a);
  }

  lemma OccupyChunk(l: Layout, a: Addr, b: Addr)
    requires ShapeOk(l) && IsFree(l, a) && a != l.top && NextOf(l, a) in l.heads && b in l.heads
    ensures ChunkOk(Occupied(l, a), b)
  {
    hide ShapeOk, OnGrid;
    ChunkAt(l, a);
    ChunkAt(l, b);
    TopFree(l);
    if b < a {
      TwoApart(l, b, a);
    } else if a < b {
      TwoApart(l, a, b);
    }
    if !l.heads[b].pinuse {
      var p := b - l.foots[b];
      ChunkAt(l, p);
    }
  }

  /** The chunk `a` and the one after it, both in use, become one. */
  function Joined(l: Layout, a: Addr): Layout
    requires a in l.heads && NextOf(l, a) in l.heads
  {
    var n := NextOf(l, a);
    l.(heads := (l.heads - {n})[a := l.heads[a].(size := l.heads[a].size + l.heads[n].size)])
  }

  lemma JoinOk(l: Layout, a: Addr)
    requires ShapeOk(l) && InUse(l, a) && NextOf(l, a) in l.heads && InUse(l, NextOf(l, a))
    ensures ShapeOk(Joined(l, a))
  {
    hide OnGrid, ShapeOk, ChunkOk;
    var l' := Joined(l, a);
    BothEnds(l);
    Solid(l, a);
    Solid(l, NextOf(l, a));
    BaseFirst(l, a);
    forall b | b in l'.heads ensures ChunkOk(l', b) {
      JoinChunk(l, a, b);
    }
    JoinApart(l, a);
    MakeShape(l');
  }

  lemma Solid(l: Layout, a: Addr)
    requires ShapeOk(l) && a in l.heads
    ensures l.heads[a].size > 0 && (a != l.top ==> NextOf(l, a) in l.heads)
  {
    ChunkAt(l, a);
  }

  lemma JoinApart(l: Layout, a: Addr)
    requires ShapeOk(l) && InUse(l, a) && NextOf(l, a) in l.heads && l.heads[a].size > 0
    ensures Apart(Joined(l, a))
  {
    hide ShapeOk;
    var l', n := Joined(l, a), NextOf(l, a);
    forall b, c | b in l'.heads && c in l'.heads && b < c ensures Before(l', b, c) {
      TwoApart(l, b, c);
      if b == a && n < c {
        TwoApart(l, n, c);
      }
    }
  }

  lemma JoinChunk(l: Layout, a: Addr, b: Addr)
    requires ShapeOk(l) && InUse(l, a) && NextOf(l, a) in l.heads && InUse(l, NextOf(l, a)) && b in Joined(l, a).heads
    ensures ChunkOk(Joined(l, a), b)
  {
    hide ShapeOk, OnGrid;
    var n := NextOf(l, a);
    ChunkAt(l, a);
    ChunkAt(l, n);
    ChunkAt(l, b);
    TopFree(l);
    GridSum(l.heads[a].size, l.heads[n].size);
    ChunkAt(l, NextOf(l, n));
    if b < a {
      TwoApart(l, b, a);
    } else if a < b {
      TwoApart(l, a, b);
    }
    if b < n {
      TwoApart(l, b, n);
    } else if n < b {
      TwoApart(l, n, b);
    }
    if !l.heads[b].pinuse {
      ChunkAt(l, b - l.foots[b]);
    }
  }

  // ----- the top chunk -----

  /** The first `nb` bytes of the top chunk are taken into use. */
  function FromTop(l: Layout, nb: nat): Layout
    requires l.top in l.heads && nb <= l.heads[l.top].size
  {
    var t := l.top + nb;
    l.(heads := l.heads[l.top := Head(nb, true, true)][t := Head(l.heads[l.top].size - nb, true, false)], top := t)
  }

  lemma FromTopOk(l: Layout, nb: nat)
    requires ShapeOk(l) && l.top in l.heads && MIN_CHUNK_SIZE <= nb < l.heads[l.top].size && OnGrid(nb)
    ensures l.top + nb !in l.heads && ShapeOk(FromTop(l, nb))
  {
    hide OnGrid, ShapeOk, ChunkOk;
    BothEnds(l);
    if l.top + nb in l.heads {
      BelowTop(l, l.top + nb);
    }
    BaseFirst(l, l.top);
    var l' := FromTop(l, nb);
    forall b | b in l'.heads ensures ChunkOk(l', b) {
      FromTopChunk(l, nb, b);
    }
    forall b, c | b in l'.heads && c in l'.heads && b < c ensures Before(l', b, c) {
      FromTopApart(l, nb, b, c);
    }
    MakeShape(l');
  }

  lemma FromTopApart(l: Layout, nb: nat, b: Addr, c: Addr)
    requires ShapeOk(l) && l.top in l.heads && 0 < nb < l.heads[l.top].size
    requires b in FromTop(l, nb).heads && c in FromTop(l, nb).heads && b < c
    ensures Before(FromTop(l, nb), b, c)
  {
    hide ShapeOk;
    if c in l.heads {
      BelowTop(l, c);
    }
    if b in l.heads && b != l.top {
      BelowTop(l, b);
      TwoApart(l, b, if c in l.heads then c else l.top);
    }
  }

  lemma FromTopChunk(l: Layout, nb: nat, b: Addr)
    requires ShapeOk(l) && l.top in l.heads && MIN_CHUNK_SIZE <= nb < l.heads[l.top].size && OnGrid(nb)
             && l.top + nb !in l.heads
    requires b in FromTop(l, nb).heads
    ensures ChunkOk(FromTop(l, nb), b)
  {
    hide ShapeOk, OnGrid;
    BothEnds(l);
    ChunkAt(l, l.top);
    GridSum(l.top, nb);
    if b in l.heads && b != l.top {
      ChunkAt(l, b);
      BelowTop(l, b);
      TwoApart(l, b, l.top);
    }
  }

  /** The chunk `a`, which the top chunk follows, is extended to `nb` bytes. */
  function IntoTop(l: Layout, a: Addr, nb: nat): Layout
    requires a in l.heads && a + nb <= l.end
  {
    var t := a + nb;
    l.(heads := (l.heads - {l.top})[a := l.heads[a].(size := nb)][t := Head(l.end - t, true, false)], top := t)
  }

  lemma IntoTopOk(l: Layout, a: Addr, nb: nat)
    requires ShapeOk(l) && InUse(l, a) && NextOf(l, a) == l.top && OnGrid(nb)
    requires l.heads[a].size < nb && a + nb < l.end
    ensures ShapeOk(IntoTop(l, a, nb))
  {
    hide OnGrid, ShapeOk, ChunkOk;
    BothEnds(l);
    Solid(l, a);
    BaseFirst(l, a);
    BelowTop(l, a);
    var l' := IntoTop(l, a, nb);
    forall b | b in l'.heads ensures ChunkOk(l', b) {
      IntoTopChunk(l, a, nb, b);
    }
    forall b, c | b in l'.heads && c in l'.heads && b < c ensures Before(l', b, c) {
      IntoTopApart(l, a, nb, b, c);
    }
    MakeShape(l');
  }

  lemma IntoTopApart(l: Layout, a: Addr, nb: nat, b: Addr, c: Addr)
    requires ShapeOk(l) && InUse(l, a) && NextOf(l, a) == l.top && l.heads[a].size < nb && a + nb < l.end
    requires b in IntoTop(l, a, nb).heads && c in IntoTop(l, a, nb).heads && b < c
    ensures Before(IntoTop(l, a, nb), b, c)
  {
    hide ShapeOk;
    Solid(l, a);
    OthersBelow(l, a, b);
    OthersBelow(l, a, c);
    if b < a && c <= a {
      TwoApart(l, b, c);
    }
  }

  /** Apart from the top chunk, nothing comes after the chunk before it. */
  lemma OthersBelow(l: Layout, a: Addr, b: Addr)
    requires ShapeOk(l) && a in l.heads && NextOf(l, a) == l.top
    ensures b in l.heads && b != l.top && b != a ==> NextOf(l, b) <= a
  {
    hide ShapeOk;
    if b in l.heads && b != l.top {
      BelowTop(l, b);
      Solid(l, b);
      if b < a {
        TwoApart(l, b, a);
      } else if a < b {
        TwoApart(l, a, b);
      }
    }
  }

  lemma IntoTopChunk(l: Layout, a: Addr, nb: nat, b: Addr)
    requires ShapeOk(l) && InUse(l, a) && NextOf(l, a) == l.top && OnGrid(nb)
    requires l.heads[a].size < nb && a + nb < l.end && b in IntoTop(l, a, nb).heads
    ensures ChunkOk(IntoTop(l, a, nb), b)
  {
    hide ShapeOk, OnGrid;
    BothEnds(l);
    ChunkAt(l, a);
    GridSum(a, nb);
    OthersBelow(l, a, b);
    if b in l.heads && b != l.top {
      ChunkAt(l, b);
      if !l.heads[b].pinuse {
        ChunkAt(l, b - l.foots[b]);
        OthersBelow(l, a, b - l.foots[b]);
      }
    }
  }
}

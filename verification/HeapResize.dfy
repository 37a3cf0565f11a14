/** What extending a chunk in place comes to. */
module HeapResize {
  import opened MallocUnits
  import opened HeapShape
  import opened HeapBins
  import opened HeapServe

  /** The chunk `p`, in use, swallows the free chunk after it. */
  function Absorbed(l: Layout, p: Addr): Layout
    requires p in l.heads && NextOf(l, p) in l.heads && NextOf(l, NextOf(l, p)) in l.heads
  {
    var n := NextOf(l, p);
    var e := NextOf(l, n);
    var merged := l.heads[p].(size := l.heads[p].size + l.heads[n].size);
    l.(heads := (l.heads - {n})[p := merged][e := l.heads[e].(pinuse := true)])
  }

  predicate CanAbsorb(l: Layout, p: Addr) {
    InUse(l, p) && NextOf(l, p) in l.heads && IsFree(l, NextOf(l, p)) && NextOf(l, p) != l.top
  }

  /** The chunk `p` holds `nb` bytes, or can be extended to by what is free behind it. The top
      chunk must keep something. */
  predicate FitsInPlace(l: Layout, p: Addr, nb: nat) {
    && p in l.heads
    && (|| l.heads[p].size >= nb
        || var n := NextOf(l, p);
           && IsFree(l, n)
           && (if n == l.top then l.heads[p].size + l.heads[n].size > nb else l.heads[p].size + l.heads[n].size >= nb))
  }

  lemma AbsorbSteps(l: Layout, p: Addr)
    requires ShapeOk(l) && CanAbsorb(l, p)
    ensures var n := NextOf(l, p);
            && NextOf(l, n) in l.heads && NextOf(Occupied(l, n), p) == n && p != n && NextOf(l, n) != p
              && NextOf(l, n) != n
            && Absorbed(l, p) == Joined(Occupied(l, n), p)
            && l.heads[p].size > 0 && l.heads[n].size > 0 && n != l.top
  {
    hide ShapeOk, OnGrid;
    FreeInside(l, NextOf(l, p));
    Solid(l, p);
  }

  lemma AbsorbState(l: Layout, pl: Place, p: Addr)
    requires CanAbsorb(l, p) && StateOk(l, pl)
    ensures NextOf(l, NextOf(l, p)) in l.heads && InUse(l, NextOf(l, NextOf(l, p)))
    ensures StateOk(Absorbed(l, p), WithoutChunk(pl, NextOf(l, p))) && SameTop(l, Absorbed(l, p))
    ensures Live(Absorbed(l, p)) == Live(l)[p := l.heads[p].size + l.heads[NextOf(l, p)].size]
    ensures InUse(Absorbed(l, p), p) && Absorbed(l, p).heads[p].size == l.heads[p].size + l.heads[NextOf(l, p)].size
    ensures OnGrid(l.heads[p].size) && l.heads[p].size >= MIN_CHUNK_SIZE
  {
    hide ShapeOk, OnGrid, Placed, Joined, Occupied;
    var n := NextOf(l, p);
    FreeInside(l, n);
    AbsorbSteps(l, p);
    InUseSize(l, p);
    OccupyOk(l, n);
    TakeOut(l, {}, pl, n);
    assert {} + {n} == {n} && {n} - {n} == {};
    OccupiedChunks(l, n, {n});
    OccupiedAt(l, n, p);
    JoinOk(Occupied(l, n), p);
    JoinedChunks(Occupied(l, n), p, {});
    SameFree(l, {n}, Absorbed(l, p), {}, WithoutChunk(pl, n));
    AbsorbTop(l, p);
    AbsorbLive(l, p);
  }

  lemma InUseSize(l: Layout, p: Addr)
    requires ShapeOk(l) && InUse(l, p)
    ensures l.heads[p].size >= MIN_CHUNK_SIZE && OnGrid(l.heads[p].size) && OnGrid(p) && p >= l.base
            && NextOf(l, p) in l.heads
    ensures p != l.top && l.heads[NextOf(l, p)].pinuse
  {
    ChunkAt(l, p);
    ChunkAt(l, l.top);
  }

  lemma OccupiedAt(l: Layout, n: Addr, p: Addr)
    requires IsFree(l, n) && InUse(l, p) && NextOf(l, n) in l.heads && NextOf(l, p) == n && NextOf(l, n) != n
    ensures var l' := Occupied(l, n); InUse(l', p) && NextOf(l', p) == n && InUse(l', n)
    ensures Occupied(l, n).heads[p].size == l.heads[p].size && Occupied(l, n).heads[n].size == l.heads[n].size
  {
  }

  lemma AbsorbTop(l: Layout, p: Addr)
    requires ShapeOk(l) && CanAbsorb(l, p) && NextOf(l, NextOf(l, p)) in l.heads
    ensures SameTop(l, Absorbed(l, p))
    ensures InUse(Absorbed(l, p), p) && Absorbed(l, p).heads[p].size == l.heads[p].size + l.heads[NextOf(l, p)].size
  {
    hide ShapeOk, OnGrid;
    BothEnds(l);
    FreeInside(l, NextOf(l, p));
    AbsorbSteps(l, p);
  }

  lemma AbsorbLive(l: Layout, p: Addr)
    requires ShapeOk(l) && CanAbsorb(l, p) && NextOf(l, NextOf(l, p)) in l.heads
    ensures Live(Absorbed(l, p)) == Live(l)[p := l.heads[p].size + l.heads[NextOf(l, p)].size]
  {
    hide ShapeOk, OnGrid;
    AbsorbSteps(l, p);
  }

  /** A chunk in use is cut in two, both in use. */
  lemma CutState(l: Layout, pl: Place, p: Addr, nb: nat)
    requires CanCut(l, p, nb) && StateOk(l, pl)
    ensures p + nb !in l.heads && StateOk(Cut(l, p, nb), pl) && SameTop(l, Cut(l, p, nb))
    ensures Live(Cut(l, p, nb)) == Live(l)[p := nb][p + nb := l.heads[p].size - nb]
    ensures InUse(Cut(l, p, nb), p) && InUse(Cut(l, p, nb), p + nb) && NextOf(l, p) in l.heads
            && l.heads[NextOf(l, p)].pinuse
  {
    hide ShapeOk, OnGrid, Placed;
    CutOk(l, p, nb);
    CutChunks(l, p, nb, {});
    SameFree(l, {}, Cut(l, p, nb), {}, pl);
    BothEnds(l);
    InUseSize(l, p);
  }

  /** The tail of an extended chunk becomes the designated victim. */
  lemma TailVictim(l: Layout, pl: Place, r: Addr)
    requires InUse(l, r) && StateOk(l, pl) && pl.dvsize == 0 && l.heads[r].pinuse
    requires NextOf(l, r) in l.heads && InUse(l, NextOf(l, r)) && l.heads[r].size > 0
    ensures var l' := Coalesced(l, r, NextOf(l, r));
            && StateOk(l', pl.(dv := r, dvsize := l.heads[r].size)) && SameTop(l, l')
            && Live(l') == Live(l) - {r}
  {
    hide ShapeOk, OnGrid, Placed;
    var e := NextOf(l, r);
    var l' := Coalesced(l, r, e);
    forall b | b in l.heads && r <= b < e ensures b == r {
      if r < b {
        TwoApart(l, r, b);
      }
    }
    CoalesceOk(l, r, e);
    CoalescedChunks(l, r, e, {});
    assert {} + {r} == {r} && {r} - {r} == {};
    SameFree(l, {}, l', {r}, pl);
    BothEnds(l);
    MakeVictim(l', {r}, pl, r);
  }

  /** The chunk before the top chunk is extended into it. */
  lemma IntoTopState(l: Layout, pl: Place, p: Addr, nb: nat)
    requires InUse(l, p) && NextOf(l, p) == l.top && l.heads[p].size < nb && p + nb < l.end && OnGrid(nb)
    requires StateOk(l, pl)
    ensures StateOk(IntoTop(l, p, nb), pl) && Live(IntoTop(l, p, nb)) == Live(l)[p := nb]
    ensures l.top in l.heads && NextOf(l, l.top) == l.end
  {
    hide ShapeOk, OnGrid, Placed;
    IntoTopOk(l, p, nb);
    IntoTopChunks(l, p, nb, {});
    SameFree(l, {}, IntoTop(l, p, nb), {}, pl);
    BothEnds(l);
  }
}

/** What freeing a chunk comes to: it is merged with its free neighbours and put away. */
module HeapDispose {
  import opened MallocUnits
  import opened HeapShape
  import opened HeapBins
  import opened HeapServe

  /** Where the merged chunk starts: at the chunk before `p`, if that is free. */
  function Front(l: Layout, p: Addr): Addr
    requires p in l.heads && (!l.heads[p].pinuse ==> p in l.foots && l.foots[p] <= p)
  {
    if l.heads[p].pinuse then p else p - l.foots[p]
  }

  /** Where it ends: after the chunk that follows `p`, if that is free. */
  function Back(l: Layout, p: Addr): Addr
    requires p in l.heads && NextOf(l, p) in l.heads
  {
    var n := NextOf(l, p);
    if l.heads[n].cinuse then n else NextOf(l, n)
  }

  predicate Linked(l: Layout, p: Addr) {
    && p in l.heads && (!l.heads[p].pinuse ==> p in l.foots && l.foots[p] <= p)
    && NextOf(l, p) in l.heads && Front(l, p) < Back(l, p)
    && (NextOf(l, p) != l.top ==> Back(l, p) in l.heads) && Front(l, p) <= l.end
  }

  function Disposed(l: Layout, p: Addr): Layout
    requires Linked(l, p)
  {
    if NextOf(l, p) == l.top then ToppedUp(l, Front(l, p)) else Coalesced(l, Front(l, p), Back(l, p))
  }

  /** The free neighbours leave their places. */
  function Vacated(l: Layout, p: Addr, pl: Place): Place
    requires Linked(l, p)
  {
    var n := NextOf(l, p);
    var pl1 := if l.heads[p].pinuse then pl else WithoutChunk(pl, Front(l, p));
    if n == l.top || l.heads[n].cinuse then pl1 else WithoutChunk(pl1, n)
  }

  predicate WasVictim(l: Layout, p: Addr, pl: Place)
    requires Linked(l, p)
  {
    pl.dvsize != 0 && ((!l.heads[p].pinuse && pl.dv == Front(l, p)) || (NextOf(l, p) != l.top && pl.dv == NextOf(l, p)))
  }

  /** The merged chunk becomes part of the top chunk, the designated victim if one of the
      neighbours was that, and otherwise goes to the bins. */
  function PutAway(l: Layout, p: Addr, pl: Place): Place
    requires Linked(l, p)
  {
    var a, s, pl1 := Front(l, p), Back(l, p) - Front(l, p), Vacated(l, p, pl);
    if NextOf(l, p) == l.top then pl1
    else if WasVictim(l, p, pl) then pl1.(dv := a, dvsize := s)
    else WithChunk(pl1, a, s)
  }

  // ----- the neighbours -----

  lemma Neighbours(l: Layout, p: Addr)
    requires ShapeOk(l) && InUse(l, p)
    ensures Linked(l, p)
    ensures var a := Front(l, p);
            && a in l.heads && l.heads[a].pinuse && a <= p && a < l.end
            && (a != p ==> IsFree(l, a) && a != l.top && NextOf(l, a) == p && l.heads[a].size == l.foots[p])
    ensures var n := NextOf(l, p);
            n != l.top ==> CanCoalesce(l, Front(l, p), Back(l, p)) && (IsFree(l, n) ==> NextOf(l, n) == Back(l, p))
  {
    hide ShapeOk, OnGrid;
    ChunkAt(l, p);
    BothEnds(l);
    var n := NextOf(l, p);
    if !l.heads[p].pinuse {
      var a := p - l.foots[p];
      ChunkAt(l, a);
      if a == l.top {
        BelowTop(l, p);
        Solid(l, p);
      }
    }
    ChunkAt(l, n);
    if n == l.top {
      Solid(l, n);
    }
    ChunkAt(l, Front(l, p));
  }

  /** The chunks from the front to the back are `p` and its free neighbours. */
  lemma OnlyNeighbours(l: Layout, p: Addr, b: Addr)
    requires ShapeOk(l) && InUse(l, p) && b in l.heads && Linked(l, p) && Front(l, p) <= b < Back(l, p)
    ensures b == p || (b == Front(l, p) && b != p) || (b == NextOf(l, p) && !l.heads[b].cinuse)
  {
    hide ShapeOk, OnGrid;
    Neighbours(l, p);
    var a, n := Front(l, p), NextOf(l, p);
    if a < b < p {
      TwoApart(l, a, b);
    } else if p < b < n {
      TwoApart(l, p, b);
    } else if n < b {
      TwoApart(l, n, b);
    }
  }

  /** With the top chunk next, nothing else comes after `p`. */
  lemma TopNext(l: Layout, p: Addr, b: Addr)
    requires ShapeOk(l) && InUse(l, p) && b in l.heads && Linked(l, p) && NextOf(l, p) == l.top && Front(l, p) <= b
    ensures b == p || b == Front(l, p) || b == l.top
  {
    hide ShapeOk, OnGrid;
    Neighbours(l, p);
    OthersBelow(l, p, b);
    Solid(l, b);
    if Front(l, p) < b && b != p && b != l.top {
      TwoApart(l, Front(l, p), b);
    }
  }

  lemma DisposeShape(l: Layout, p: Addr)
    requires ShapeOk(l) && InUse(l, p)
    ensures Linked(l, p) && ShapeOk(Disposed(l, p))
    ensures NextOf(l, p) != l.top ==>
      var a := Front(l, p); IsFree(Disposed(l, p), a) && a != l.top && Disposed(l, p).heads[a].size == Back(l, p) - a
    ensures Disposed(l, p).base == l.base && Disposed(l, p).end == l.end
  {
    hide ShapeOk, OnGrid;
    Neighbours(l, p);
    BothEnds(l);
    if NextOf(l, p) == l.top {
      ToppedUpOk(l, Front(l, p));
    } else {
      CoalesceOk(l, Front(l, p), Back(l, p));
    }
  }

  function Neighbourhood(l: Layout, p: Addr): set<Addr>
    requires Linked(l, p)
  {
    (if l.heads[p].pinuse then {} else {Front(l, p)})
    + (if NextOf(l, p) == l.top || l.heads[NextOf(l, p)].cinuse then {} else {NextOf(l, p)})
  }

  lemma VacatedPlaced(l: Layout, p: Addr, pl: Place)
    requires Linked(l, p) && Placed(l, {}, pl)
    ensures Placed(l, Neighbourhood(l, p), Vacated(l, p, pl))
  {
    hide Placed, ShapeOk;
    var n := NextOf(l, p);
    var s1: set<Addr> := if l.heads[p].pinuse then {} else {Front(l, p)};
    var pl1 := if l.heads[p].pinuse then pl else WithoutChunk(pl, Front(l, p));
    if !l.heads[p].pinuse {
      TakeOut(l, {}, pl, Front(l, p));
      assert {} + {Front(l, p)} == s1;
    }
    if n == l.top || l.heads[n].cinuse {
      assert Neighbourhood(l, p) == s1;
    } else {
      TakeOut(l, s1, pl1, n);
    }
  }

  lemma DisposeLive(l: Layout, p: Addr)
    requires ShapeOk(l) && InUse(l, p)
    ensures Linked(l, p) && Live(Disposed(l, p)) == Live(l) - {p}
  {
    hide ShapeOk, OnGrid, FreeChunks, Coalesced, ToppedUp, CanCoalesce;
    Neighbours(l, p);
    var a, e := Front(l, p), Back(l, p);
    Solid(l, p);
    Solid(l, NextOf(l, p));
    BothEnds(l);
    if NextOf(l, p) == l.top {
      ToppedFree(l, p);
      forall b | b in l.heads && a <= b ensures b == p || b == a || b == l.top {
        TopNext(l, p, b);
      }
    } else {
      CoalescedFree(l, p);
      forall b | b in l.heads && a <= b < e ensures b == p || !l.heads[b].cinuse {
        OnlyNeighbours(l, p, b);
      }
    }
  }

  lemma CoalescedFree(l: Layout, p: Addr)
    requires ShapeOk(l) && InUse(l, p) && Linked(l, p) && NextOf(l, p) != l.top
    ensures var a, e := Front(l, p), Back(l, p);
            && FreeChunks(Coalesced(l, a, e), Neighbourhood(l, p) + {a}) == FreeChunks(l, Neighbourhood(l, p))
            && Live(Coalesced(l, a, e)) == map b | b in Live(l) && !(a <= b < e) :: Live(l)[b]
  {
    hide ShapeOk, OnGrid;
    Neighbours(l, p);
    var a, e := Front(l, p), Back(l, p);
    forall b | b in l.heads && a <= b < e && !l.heads[b].cinuse ensures b in Neighbourhood(l, p) {
      OnlyNeighbours(l, p, b);
    }
    CoalescedChunks(l, a, e, Neighbourhood(l, p));
  }

  lemma ToppedFree(l: Layout, p: Addr)
    requires ShapeOk(l) && InUse(l, p) && Linked(l, p) && NextOf(l, p) == l.top
    ensures var a := Front(l, p);
            && FreeChunks(ToppedUp(l, a), Neighbourhood(l, p)) == FreeChunks(l, Neighbourhood(l, p))
            && Live(ToppedUp(l, a)) == map b | b in Live(l) && b < a :: Live(l)[b]
  {
    hide ShapeOk, OnGrid;
    Neighbours(l, p);
    var a := Front(l, p);
    forall b | b in l.heads && a <= b && b != l.top && !l.heads[b].cinuse ensures b in Neighbourhood(l, p) {
      TopNext(l, p, b);
    }
    ToppedChunks(l, a, Neighbourhood(l, p));
  }

  /** The neighbours are gone or merged, so nothing is loose but the merged chunk. */
  lemma NothingElseLoose(l: Layout, p: Addr)
    requires ShapeOk(l) && InUse(l, p) && Linked(l, p) && NextOf(l, p) != l.top
    ensures var l' := Disposed(l, p);
            FreeChunks(l', {Front(l, p)}) == FreeChunks(l', Neighbourhood(l, p) + {Front(l, p)})
  {
    hide ShapeOk, OnGrid;
    Neighbours(l, p);
    var n := NextOf(l, p);
    Solid(l, p);
    Solid(l, n);
    assert !l.heads[n].cinuse ==> n !in Disposed(l, p).heads;
  }

  lemma NothingLoose(l: Layout, p: Addr)
    requires ShapeOk(l) && InUse(l, p) && Linked(l, p) && NextOf(l, p) == l.top
    ensures FreeChunks(Disposed(l, p), {}) == FreeChunks(Disposed(l, p), Neighbourhood(l, p))
  {
    hide ShapeOk, OnGrid;
    Neighbours(l, p);
  }

  lemma DisposePlaced(l: Layout, p: Addr, pl: Place)
    requires ShapeOk(l) && InUse(l, p) && Placed(l, {}, pl)
    ensures Linked(l, p) && Placed(Disposed(l, p), {}, PutAway(l, p, pl))
  {
    hide ShapeOk, OnGrid, Placed, Disposed, Vacated, FreeChunks, Neighbourhood;
    Neighbours(l, p);
    VacatedPlaced(l, p, pl);
    DisposeShape(l, p);
    var l', pl1, a := Disposed(l, p), Vacated(l, p, pl), Front(l, p);
    DisposedIs(l, p);
    if NextOf(l, p) == l.top {
      ToppedFree(l, p);
      NothingLoose(l, p);
      SameFree(l, Neighbourhood(l, p), l', {}, pl1);
    } else {
      CoalescedFree(l, p);
      NothingElseLoose(l, p);
      SameFree(l, Neighbourhood(l, p), l', {a}, pl1);
      assert {a} - {a} == {};
      if WasVictim(l, p, pl) {
        VictimVacated(l, p, pl);
        MakeVictim(l', {a}, pl1, a);
      } else {
        PutIn(l', {a}, pl1, a);
      }
    }
  }

  lemma DisposedIs(l: Layout, p: Addr)
    requires Linked(l, p)
    ensures Disposed(l, p) == if NextOf(l, p) == l.top then ToppedUp(l, Front(l, p))
            else Coalesced(l, Front(l, p), Back(l, p))
    ensures NextOf(l, p) != l.top ==> Disposed(l, p).top == l.top
  {
  }

  lemma VictimVacated(l: Layout, p: Addr, pl: Place)
    requires InUse(l, p) && Linked(l, p) && WasVictim(l, p, pl) && Placed(l, {}, pl)
    ensures Vacated(l, p, pl).dvsize == 0
  {
    PlacedAt(l, {}, pl, pl.dv);
  }

  /** Freeing `p` takes it from the live chunks and keeps everything well-formed. */
  lemma DisposeState(l: Layout, pl: Place, p: Addr)
    requires InUse(l, p) && StateOk(l, pl)
    ensures Linked(l, p) && StateOk(Disposed(l, p), PutAway(l, p, pl))
    ensures Live(Disposed(l, p)) == Live(l) - {p}
    ensures Disposed(l, p).base == l.base && Disposed(l, p).end == l.end
  {
    hide ShapeOk, OnGrid, Placed, Disposed;
    DisposeShape(l, p);
    DisposePlaced(l, p, pl);
    DisposeLive(l, p);
  }

  /** What the code that frees `p` finds. */
  lemma Finds(l: Layout, pl: Place, p: Addr)
    requires InUse(l, p) && StateOk(l, pl)
    ensures Linked(l, p) && p !in pl.tree && p !in pl.small && l.top in l.heads && l.top != p && l.heads[l.top].pinuse
    ensures Front(l, p) >= l.base && NextOf(l, l.top) == l.end
    ensures !l.heads[p].pinuse ==>
      var a := Front(l, p);
      && a in l.heads && a < p && l.heads[a].size == l.foots[p] && a + l.foots[p] == p && a != l.top
      && (if pl.dvsize != 0 && a == pl.dv then pl.dvsize == l.foots[p] && a !in pl.tree && a !in pl.small
          else if l.foots[p] < MIN_LARGE_SIZE then a in pl.small && pl.small[a] == l.foots[p] && a !in pl.tree
            else a in pl.tree && a !in pl.small)
    ensures var n := NextOf(l, p);
      !l.heads[n].cinuse && n != l.top ==>
      && NextOf(l, n) == Back(l, p) && Back(l, p) in l.heads && !l.heads[Back(l, p)].pinuse
      && (if pl.dvsize != 0 && n == pl.dv then pl.dvsize == l.heads[n].size && n !in pl.tree && n !in pl.small
          else if l.heads[n].size < MIN_LARGE_SIZE then n in pl.small && pl.small[n] == l.heads[n].size && n !in pl.tree
            else n in pl.tree && n !in pl.small)
    ensures NextOf(l, p) > p && (NextOf(l, p) == l.top ==> !l.heads[l.top].cinuse) && Back(l, p) <= l.end
    ensures pl.dvsize != 0 ==> pl.dv != p && pl.dv != l.top
  {
    hide ShapeOk, OnGrid, Placed;
    Neighbours(l, p);
    BothEnds(l);
    Solid(l, p);
    BaseFirst(l, Front(l, p));
    PlacedAt(l, {}, pl, p);
    PlacedAt(l, {}, pl, Front(l, p));
    PlacedAt(l, {}, pl, NextOf(l, p));
    PlacedAt(l, {}, pl, pl.dv);
    BelowTop(l, NextOf(l, p));
    if IsFree(l, NextOf(l, p)) && NextOf(l, p) != l.top {
      NotFreeBehind(l, NextOf(l, p));
    }
  }

  /** The place once the free chunk before `p` has left the bins; the designated victim stays. */
  function BackPlace(l: Layout, p: Addr, pl: Place): Place
    requires Linked(l, p)
  {
    if l.heads[p].pinuse || (pl.dvsize != 0 && pl.dv == Front(l, p)) then pl else WithoutChunk(pl, Front(l, p))
  }

  /** The designated victim after a free: the same, unless it lies next to the freed chunk; then it
      is part of the top chunk, or it is the chunk the freed one became part of. */
  predicate VictimFreed(l: Layout, pl: Place, p: Addr, pl': Place) {
    && p in l.heads
    && var near := pl.dvsize != 0 && (pl.dv + pl.dvsize == p || pl.dv == NextOf(l, p));
       if !near then pl'.dv == pl.dv && pl'.dvsize == pl.dvsize
       else if NextOf(l, p) == l.top then pl'.dvsize == 0
       else pl'.dv <= p && pl'.dv <= pl.dv && pl.dv + pl.dvsize <= pl'.dv + pl'.dvsize
            && NextOf(l, p) <= pl'.dv + pl'.dvsize
  }

  lemma FreedVictim(l: Layout, pl: Place, p: Addr)
    requires InUse(l, p) && StateOk(l, pl) && Linked(l, p)
    ensures VictimFreed(l, pl, p, PutAway(l, p, pl))
  {
    hide ShapeOk, OnGrid, Placed;
    Finds(l, pl, p);
    if pl.dvsize != 0 {
      PlacedAt(l, {}, pl, pl.dv);
      FreeInside(l, pl.dv);
      NotFreeBehind(l, pl.dv);
      assert pl.dv + pl.dvsize == p ==> !l.heads[p].pinuse && Front(l, p) == pl.dv;
      assert pl.dv == NextOf(l, p) ==> Back(l, p) == pl.dv + pl.dvsize && pl.dv != l.top;
      assert Back(l, p) >= NextOf(l, p);
    }
  }

  /** The cases of `PutAway`, as the code takes them. */
  lemma PutAwayCases(l: Layout, pl: Place, p: Addr)
    requires InUse(l, p) && StateOk(l, pl) && Linked(l, p)
    ensures var a, n, s, kept := Front(l, p), NextOf(l, p), Back(l, p) - Front(l, p), BackPlace(l, p, pl);
            var victim := pl.dvsize != 0 && pl.dv == a && a != p;
            && (a == p <==> l.heads[p].pinuse) && a !in kept.tree && a !in kept.small && kept.dvsize == pl.dvsize
              && kept.dv == pl.dv
            && (n in kept.tree <==> n in pl.tree) && (n in kept.small <==> n in pl.small)
            && (n in kept.small ==> kept.small[n] == pl.small[n]) && (n != l.top ==> OnGrid(s))
            && PutAway(l, p, pl) ==
                 if n == l.top then (if victim then kept.(dv := 0, dvsize := 0) else kept)
                 else if l.heads[n].cinuse then (if victim then kept.(dvsize := s) else WithChunk(kept, a, s))
                 else if pl.dvsize != 0 && pl.dv == n then kept.(dv := a, dvsize := s)
                 else if victim then WithoutChunk(kept, n).(dvsize := s)
                 else WithChunk(WithoutChunk(kept, n), a, s)
  {
    hide ShapeOk, OnGrid, Placed;
    Finds(l, pl, p);
    Neighbours(l, p);
    var a, n := Front(l, p), NextOf(l, p);
    assert n != p && a != n;
    PlacedAt(l, {}, pl, pl.dv);
    PlacedAt(l, {}, pl, p);
    if n != l.top {
      ChunkAt(l, a);
      ChunkAt(l, Back(l, p));
      GridDifference(a, Back(l, p));
    }
  }
}

/** Where the free chunks of a segment are kept, and what the caller sees of the others. */
module HeapBins {
  import opened MallocUnits
  import opened HeapShape

  /** The designated victim (none if `dvsize` is 0), the chunks in the tree bins and those in
      the small bins. */
  datatype Place = Place(dv: Addr, dvsize: nat, tree: map<Addr, nat>, small: map<Addr, nat>)

  /** The free chunks other than the top one, and other than the `loose` ones, which are
      on their way into or out of the bins. */
  function FreeChunks(l: Layout, loose: set<Addr>): map<Addr, nat> {
    map a | a in l.heads && !l.heads[a].cinuse && a != l.top && a !in loose :: l.heads[a].size
  }

  /** The chunks in use. */
  function Live(l: Layout): map<Addr, nat> {
    map a | a in l.heads && l.heads[a].cinuse :: l.heads[a].size
  }

  function Victim(p: Place): map<Addr, nat> {
    if p.dvsize == 0 then map[] else map[p.dv := p.dvsize]
  }

  /** No chunk is in two places, and each is in the right kind of bin for its size. */
  ghost predicate Separate(p: Place) {
    && p.tree.Keys !! p.small.Keys && Victim(p).Keys !! p.tree.Keys && Victim(p).Keys !! p.small.Keys
    && (forall a :: a in p.tree ==> p.tree[a] >= MIN_LARGE_SIZE)
    && (forall a :: a in p.small ==> p.small[a] < MIN_LARGE_SIZE)
  }

  function Everywhere(p: Place): map<Addr, nat> {
    p.tree + p.small + Victim(p)
  }

  /** Every free chunk but the loose ones is in exactly one place, with its size. */
  ghost predicate Placed(l: Layout, loose: set<Addr>, p: Place) {
    Separate(p) && Everywhere(p) == FreeChunks(l, loose)
  }

  // ----- into and out of the bins -----

  function WithoutChunk(p: Place, a: Addr): Place {
    if p.dvsize != 0 && a == p.dv then p.(dvsize := 0, dv := 0)
    else p.(tree := p.tree - {a}, small := p.small - {a})
  }

  function WithChunk(p: Place, a: Addr, s: nat): Place {
    if s < MIN_LARGE_SIZE then p.(small := p.small[a := s]) else p.(tree := p.tree[a := s])
  }

  lemma Removed(p: Place, a: Addr)
    requires Separate(p)
    ensures Separate(WithoutChunk(p, a)) && Everywhere(WithoutChunk(p, a)) == Everywhere(p) - {a}
  {
    var v := Victim(p);
    LessOf(p.tree + p.small, v, a);
    LessOf(p.tree, p.small, a);
    if p.dvsize != 0 && a == p.dv {
      assert a in v && v - {a} == map[];
      LessOf(p.small, v, a);
    } else {
      assert v - {a} == v;
    }
  }

  lemma Added(p: Place, a: Addr, s: nat)
    requires Separate(p) && a !in Everywhere(p)
    ensures Separate(WithChunk(p, a, s)) && Everywhere(WithChunk(p, a, s)) == Everywhere(p)[a := s]
  {
    assert a !in p.tree && a !in p.small && a !in Victim(p);
    OneMore(p.tree, p.small, Victim(p), a, s);
    hide Victim;
  }

  lemma FreeLess(l: Layout, loose: set<Addr>, a: Addr)
    ensures FreeChunks(l, loose + {a}) == FreeChunks(l, loose) - {a}
  {
  }

  lemma TakeOut(l: Layout, loose: set<Addr>, p: Place, a: Addr)
    requires Placed(l, loose, p)
    ensures Placed(l, loose + {a}, WithoutChunk(p, a))
  {
    hide Separate, Everywhere, FreeChunks, WithoutChunk;
    Removed(p, a);
    FreeLess(l, loose, a);
  }

  lemma FreeMore(l: Layout, loose: set<Addr>, a: Addr)
    requires IsFree(l, a) && a != l.top && a in loose
    ensures a !in FreeChunks(l, loose)
    ensures FreeChunks(l, loose - {a}) == FreeChunks(l, loose)[a := l.heads[a].size]
  {
  }

  lemma PutIn(l: Layout, loose: set<Addr>, p: Place, a: Addr)
    requires Placed(l, loose, p) && IsFree(l, a) && a != l.top && a in loose
    ensures Placed(l, loose - {a}, WithChunk(p, a, l.heads[a].size))
  {
    hide Separate, Everywhere, FreeChunks, WithChunk;
    FreeMore(l, loose, a);
    Added(p, a, l.heads[a].size);
  }

  /** A loose chunk becomes the designated victim; there was none. */
  lemma MakeVictim(l: Layout, loose: set<Addr>, p: Place, a: Addr)
    requires Placed(l, loose, p) && IsFree(l, a) && a != l.top && a in loose && p.dvsize == 0 && l.heads[a].size > 0
    ensures Placed(l, loose - {a}, p.(dv := a, dvsize := l.heads[a].size))
  {
    var p', f, f' := p.(dv := a, dvsize := l.heads[a].size), FreeChunks(l, loose), FreeChunks(l, loose - {a});
    assert a !in f;
    forall b ensures b in Everywhere(p') <==> b in f' {
      assert b in Everywhere(p) <==> b in f;
    }
    forall b | b in f' ensures Everywhere(p')[b] == f'[b] {
      if b != a {
        assert Everywhere(p)[b] == f[b];
      }
    }
  }

  lemma SameFree(l: Layout, loose: set<Addr>, l': Layout, loose': set<Addr>, p: Place)
    requires Placed(l, loose, p) && FreeChunks(l', loose') == FreeChunks(l, loose)
    ensures Placed(l', loose', p)
  {
  }

  /** Where a chunk of the bins is. */
  lemma PlacedAt(l: Layout, loose: set<Addr>, p: Place, a: Addr)
    requires Placed(l, loose, p)
    ensures a in p.tree ==> IsFree(l, a) && a != l.top && a !in loose && p.tree[a] == l.heads[a].size >= MIN_LARGE_SIZE
    ensures a in p.small ==> IsFree(l, a) && a != l.top && a !in loose && p.small[a] == l.heads[a].size < MIN_LARGE_SIZE
    ensures p.dvsize != 0 && a == p.dv ==>
      IsFree(l, a) && a != l.top && a !in loose && p.dvsize == l.heads[a].size && a !in p.tree && a !in p.small
    ensures IsFree(l, a) && a != l.top && a !in loose ==>
      a in p.tree || a in p.small || (p.dvsize != 0 && a == p.dv)
    ensures a in loose || InUse(l, a) ==> a !in p.tree && a !in p.small && !(p.dvsize != 0 && a == p.dv)
  {
    var f := FreeChunks(l, loose);
    assert Everywhere(p) == f;
    assert a in Everywhere(p) <==> a in f;
    if a in f {
      assert Everywhere(p)[a] == f[a];
    }
  }

  // ----- what the changes of the layout do to the free and the live chunks -----

  lemma CoalescedChunks(l: Layout, a: Addr, e: Addr, loose: set<Addr>)
    requires ShapeOk(l) && CanCoalesce(l, a, e)
    requires forall b :: b in l.heads && a <= b < e && !l.heads[b].cinuse ==> b in loose
    ensures FreeChunks(Coalesced(l, a, e), loose + {a}) == FreeChunks(l, loose)
    ensures Live(Coalesced(l, a, e)) == map b | b in Live(l) && !(a <= b < e) :: Live(l)[b]
  {
    hide ShapeOk;
    BothEnds(l);
    BelowTop(l, e);
    MergedFree(l, a, e, loose);
    MergedLive(l, a, e);
  }

  lemma MergedFree(l: Layout, a: Addr, e: Addr, loose: set<Addr>)
    requires CanCoalesce(l, a, e) && e <= l.top
    requires forall b :: b in l.heads && a <= b < e && !l.heads[b].cinuse ==> b in loose
    ensures FreeChunks(Coalesced(l, a, e), loose + {a}) == FreeChunks(l, loose)
  {
  }

  lemma MergedLive(l: Layout, a: Addr, e: Addr)
    requires CanCoalesce(l, a, e)
    ensures Live(Coalesced(l, a, e)) == map b | b in Live(l) && !(a <= b < e) :: Live(l)[b]
  {
  }

  lemma ToppedChunks(l: Layout, a: Addr, loose: set<Addr>)
    requires ShapeOk(l) && a in l.heads && l.heads[a].pinuse && a < l.end
    requires forall b :: b in l.heads && a <= b && b != l.top && !l.heads[b].cinuse ==> b in loose
    ensures FreeChunks(ToppedUp(l, a), loose) == FreeChunks(l, loose)
    ensures Live(ToppedUp(l, a)) == map b | b in Live(l) && b < a :: Live(l)[b]
  {
    hide ShapeOk;
    BothEnds(l);
    forall b | b in l.heads ensures b < l.end {
      ChunkAt(l, b);
    }
    BelowTop(l, a);
  }

  lemma OccupiedChunks(l: Layout, a: Addr, loose: set<Addr>)
    requires ShapeOk(l) && IsFree(l, a) && a != l.top && a in loose
    ensures NextOf(l, a) in l.heads
    ensures FreeChunks(Occupied(l, a), loose - {a}) == FreeChunks(l, loose)
    ensures Live(Occupied(l, a)) == Live(l)[a := l.heads[a].size]
  {
    hide ShapeOk, OnGrid;
    FreeInside(l, a);
  }

  lemma CutChunks(l: Layout, a: Addr, nb: nat, loose: set<Addr>)
    requires ShapeOk(l) && CanCut(l, a, nb)
    ensures a + nb !in l.heads
    ensures FreeChunks(Cut(l, a, nb), loose) == FreeChunks(l, loose)
    ensures Live(Cut(l, a, nb)) == Live(l)[a := nb][a + nb := l.heads[a].size - nb]
  {
    hide ShapeOk, OnGrid;
    CutOk(l, a, nb);
    BothEnds(l);
  }

  lemma JoinedChunks(l: Layout, a: Addr, loose: set<Addr>)
    requires ShapeOk(l) && InUse(l, a) && NextOf(l, a) in l.heads && InUse(l, NextOf(l, a))
    ensures FreeChunks(Joined(l, a), loose) == FreeChunks(l, loose)
    ensures Live(Joined(l, a)) == (Live(l) - {NextOf(l, a)})[a := l.heads[a].size + l.heads[NextOf(l, a)].size]
  {
    hide ShapeOk, OnGrid;
    Solid(l, a);
  }

  lemma FromTopChunks(l: Layout, nb: nat, loose: set<Addr>)
    requires ShapeOk(l) && l.top in l.heads && MIN_CHUNK_SIZE <= nb < l.heads[l.top].size && OnGrid(nb)
    ensures FreeChunks(FromTop(l, nb), loose) == FreeChunks(l, loose)
    ensures Live(FromTop(l, nb)) == Live(l)[l.top := nb] && l.top !in Live(l)
  {
    hide ShapeOk, OnGrid;
    FromTopOk(l, nb);
    BothEnds(l);
  }

  lemma IntoTopChunks(l: Layout, a: Addr, nb: nat, loose: set<Addr>)
    requires ShapeOk(l) && InUse(l, a) && NextOf(l, a) == l.top && l.heads[a].size < nb && a + nb < l.end
    ensures FreeChunks(IntoTop(l, a, nb), loose) == FreeChunks(l, loose)
    ensures Live(IntoTop(l, a, nb)) == Live(l)[a := nb]
  {
    hide ShapeOk;
    BothEnds(l);
    Solid(l, a);
    forall b | b in l.heads && b != l.top ensures b <= a {
      OthersBelow(l, a, b);
    }
  }
}

/** What a request that is served from a free chunk, or a free of a chunk, comes to. */
module HeapServe {
  import opened MallocUnits
  import opened HeapShape
  import opened HeapBins

  /** The request `nb` is served from the front of the free chunk `v`; what is left over
      stays a free chunk if it can be one. */
  function Served(l: Layout, v: Addr, nb: nat): Layout
    requires v in l.heads && nb <= l.heads[v].size && NextOf(l, v) in l.heads
  {
    var s := l.heads[v].size;
    if s - nb < MIN_CHUNK_SIZE then Occupied(l, v)
    else l.(heads := l.heads[v := Head(nb, true, true)][v + nb := Head(s - nb, true, false)],
      foots := l.foots[v + s := s - nb])
  }

  predicate CanServe(l: Layout, v: Addr, nb: nat) {
    IsFree(l, v) && v != l.top && NextOf(l, v) in l.heads && MIN_CHUNK_SIZE <= nb <= l.heads[v].size && OnGrid(nb)
  }

  /** Neither the top chunk nor any other free chunk can serve the request. */
  predicate Exhausted(l: Layout, nb: nat) {
    && (l.top in l.heads ==> l.heads[l.top].size <= nb)
    && forall a :: a in FreeChunks(l, {}) ==> FreeChunks(l, {})[a] < nb
  }

  lemma NotExhausted(l: Layout, v: Addr, nb: nat)
    requires CanServe(l, v, nb)
    ensures !Exhausted(l, nb)
  {
    assert v in FreeChunks(l, {}) && FreeChunks(l, {})[v] >= nb;
  }

  /** Cutting a remainder off a chunk and freeing it again: its neighbours see no change. */
  lemma ServeSteps(l: Layout, v: Addr, nb: nat)
    requires ShapeOk(l) && CanServe(l, v, nb) && l.heads[v].size - nb >= MIN_CHUNK_SIZE
    ensures NextOf(l, v) in l.heads && CanCut(Occupied(l, v), v, nb)
    ensures CanCoalesce(Cut(Occupied(l, v), v, nb), v + nb, NextOf(l, v))
    ensures Served(l, v, nb) == Coalesced(Cut(Occupied(l, v), v, nb), v + nb, NextOf(l, v))
    ensures v + nb !in l.heads
  {
    hide ShapeOk, OnGrid;
    FreeInside(l, v);
    var n := NextOf(l, v);
    forall b | b in l.heads ensures b <= v || n <= b {
      if v < b {
        TwoApart(l, v, b);
      }
    }
    NotFreeBehind(l, v);
    assert !l.heads[n].pinuse;
  }

  lemma NotFreeBehind(l: Layout, v: Addr)
    requires ShapeOk(l) && IsFree(l, v) && v != l.top
    ensures NextOf(l, v) in l.heads && !l.heads[NextOf(l, v)].pinuse && l.heads[v].pinuse
  {
    ChunkAt(l, v);
  }

  lemma ServeShape(l: Layout, v: Addr, nb: nat)
    requires ShapeOk(l) && CanServe(l, v, nb)
    ensures NextOf(l, v) in l.heads && ShapeOk(Served(l, v, nb))
    ensures l.heads[v].size - nb >= MIN_CHUNK_SIZE ==>
      && IsFree(Served(l, v, nb), v + nb) && v + nb != l.top
        && Served(l, v, nb).heads[v + nb].size == l.heads[v].size - nb
  {
    hide ShapeOk, OnGrid;
    FreeInside(l, v);
    OccupyOk(l, v);
    if l.heads[v].size - nb >= MIN_CHUNK_SIZE {
      ServeSteps(l, v, nb);
      BothEnds(l);
      CutOk(Occupied(l, v), v, nb);
      CoalesceOk(Cut(Occupied(l, v), v, nb), v + nb, NextOf(l, v));
    }
  }

  /** What the chunk handed out is given. */
  function Given(size: nat, nb: nat): nat
    requires nb <= size
  {
    if size - nb < MIN_CHUNK_SIZE then size else nb
  }

  function LooseAfter(loose: set<Addr>, v: Addr, nb: nat, size: nat): set<Addr>
    requires nb <= size
  {
    if size - nb < MIN_CHUNK_SIZE then loose - {v} else loose - {v} + {v + nb}
  }

  lemma NoneWithin(l: Layout, v: Addr)
    requires ShapeOk(l) && IsFree(l, v) && v != l.top
    ensures NextOf(l, v) in l.heads && forall b :: b in l.heads ==> b <= v || NextOf(l, v) <= b
  {
    hide ShapeOk;
    FreeInside(l, v);
    forall b | b in l.heads ensures b <= v || NextOf(l, v) <= b {
      if v < b {
        TwoApart(l, v, b);
      }
    }
  }

  /** The chunk `v` was loose; it is live now, and the remainder is loose. */
  lemma ServeFree(l: Layout, v: Addr, nb: nat, loose: set<Addr>)
    requires v in loose && v + nb !in loose && CanServe(l, v, nb)
    requires ShapeOk(l)
    ensures NextOf(l, v) in l.heads
    ensures FreeChunks(Served(l, v, nb), LooseAfter(loose, v, nb, l.heads[v].size)) == FreeChunks(l, loose)
  {
    hide ShapeOk, OnGrid;
    NoneWithin(l, v);
    FreeInside(l, v);
    if l.heads[v].size - nb < MIN_CHUNK_SIZE {
      OccupiedChunks(l, v, loose);
    }
  }

  lemma ServeLive(l: Layout, v: Addr, nb: nat)
    requires CanServe(l, v, nb)
    requires ShapeOk(l)
    ensures NextOf(l, v) in l.heads && v !in Live(l)
    ensures Live(Served(l, v, nb)) == Live(l)[v := Given(l.heads[v].size, nb)]
  {
    hide ShapeOk, OnGrid;
    NoneWithin(l, v);
    FreeInside(l, v);
    if l.heads[v].size - nb < MIN_CHUNK_SIZE {
      OccupiedChunks(l, v, {v});
    }
  }

  /** Where the remainder goes: to the bins of its size. */
  function PlaceAfter(p: Place, v: Addr, nb: nat, size: nat): Place
    requires nb <= size
  {
    if size - nb < MIN_CHUNK_SIZE then WithoutChunk(p, v) else WithChunk(WithoutChunk(p, v), v + nb, size - nb)
  }

  lemma ServePlaced(l: Layout, v: Addr, nb: nat, p: Place)
    requires ShapeOk(l) && CanServe(l, v, nb) && Placed(l, {}, p)
    ensures NextOf(l, v) in l.heads && Placed(Served(l, v, nb), {}, PlaceAfter(p, v, nb, l.heads[v].size))
  {
    hide ShapeOk, OnGrid, Placed, Served;
    ServeLoose(l, v, nb, p);
    if l.heads[v].size - nb >= MIN_CHUNK_SIZE {
      ServeShape(l, v, nb);
      ServedTop(l, v, nb);
      PutIn(Served(l, v, nb), {v + nb}, WithoutChunk(p, v), v + nb);
      assert {v + nb} - {v + nb} == {};
    }
  }

  lemma ServedTop(l: Layout, v: Addr, nb: nat)
    requires v in l.heads && nb <= l.heads[v].size && NextOf(l, v) in l.heads
    ensures Served(l, v, nb).top == l.top
  {
  }

  /** Before the remainder is put anywhere. */
  lemma ServeLoose(l: Layout, v: Addr, nb: nat, p: Place)
    requires ShapeOk(l) && CanServe(l, v, nb) && Placed(l, {}, p)
    ensures NextOf(l, v) in l.heads
    ensures Placed(Served(l, v, nb), if l.heads[v].size - nb < MIN_CHUNK_SIZE then {} else {v + nb}, WithoutChunk(p, v))
  {
    hide ShapeOk, OnGrid, Placed, Served;
    TakeOut(l, {}, p, v);
    assert {} + {v} == {v};
    FreeInside(l, v);
    ServeFree(l, v, nb, {v});
    var loose := if l.heads[v].size - nb < MIN_CHUNK_SIZE then {} else {v + nb};
    assert loose == if l.heads[v].size - nb < MIN_CHUNK_SIZE then {v} - {v} else {v} - {v} + {v + nb};
    SameFree(l, {v}, Served(l, v, nb), loose, WithoutChunk(p, v));
  }

  /** The designated victim goes to the small bins. */
  lemma RetireVictim(l: Layout, loose: set<Addr>, p: Place)
    requires Placed(l, loose, p) && 0 < p.dvsize < MIN_LARGE_SIZE
    ensures Placed(l, loose, p.(dv := 0, dvsize := 0, small := p.small[p.dv := p.dvsize]))
  {
    hide FreeChunks;
    Retired(p);
  }

  lemma Retired(p: Place)
    requires Separate(p) && 0 < p.dvsize < MIN_LARGE_SIZE
    ensures var p' := p.(dv := 0, dvsize := 0, small := p.small[p.dv := p.dvsize]);
            Separate(p') && Everywhere(p') == Everywhere(p)
  {
    assert Victim(p) == map[p.dv := p.dvsize];
    assert p.dv !in p.small && p.dv !in p.tree;
  }

  // ----- what an operation comes to -----

  /** The layout is well-formed and every free chunk is where it belongs. */
  ghost predicate StateOk(l: Layout, p: Place) {
    ShapeOk(l) && Placed(l, {}, p)
  }

  /** What the caller sees: a new live chunk for the request, and the others as they were. */
  predicate HandedOut(live: map<Addr, nat>, live': map<Addr, nat>, p: Addr, nb: nat) {
    p !in live && p in live' && live' == live[p := live'[p]] && nb <= live'[p] < nb + MIN_CHUNK_SIZE
  }

  /** What the caller sees of a chunk that is resized in place. */
  predicate Resized(live: map<Addr, nat>, live': map<Addr, nat>, p: Addr, nb: nat) {
    p in live && p in live' && live' == live[p := live'[p]] && nb <= live'[p] < nb + MIN_CHUNK_SIZE
  }

  /** A chunk handed out by an aligned request. */
  predicate HandedTo(live: map<Addr, nat>, live': map<Addr, nat>, p: Addr, nb: nat) {
    p !in live && p in live' && live' == live[p := live'[p]] && nb <= live'[p] <= nb + MIN_CHUNK_SIZE
  }

  /** The old chunk is freed after another one was handed out. */
  lemma MovedAway(live: map<Addr, nat>, live': map<Addr, nat>, p: Addr, q: Addr, nb: nat)
    requires p in live && HandedOut(live, live', q, nb)
    ensures p in live' && p != q && HandedOut(live - {p}, live' - {p}, q, nb)
  {
  }

  lemma ResizedTo(live: map<Addr, nat>, live': map<Addr, nat>, p: Addr, nb: nat, s: nat)
    requires p in live && live' == live[p := s] && nb <= s < nb + MIN_CHUNK_SIZE
    ensures Resized(live, live', p, nb)
  {
  }

  /** The ends of the segment stay, and so does the top chunk. */
  predicate SameTop(l: Layout, l': Layout) {
    && l'.base == l.base && l'.end == l.end && l'.top == l.top
    && l.top in l.heads && l.top in l'.heads && l'.heads[l.top] == l.heads[l.top]
  }

  lemma ServeState(l: Layout, p: Place, v: Addr, nb: nat)
    requires CanServe(l, v, nb) && StateOk(l, p)
    ensures ShapeOk(Served(l, v, nb)) && SameTop(l, Served(l, v, nb)) && v >= l.base
    ensures HandedOut(Live(l), Live(Served(l, v, nb)), v, nb)
  {
    hide ShapeOk, OnGrid, Placed;
    ServeShape(l, v, nb);
    ServeLive(l, v, nb);
    FreeInside(l, v);
    BothEnds(l);
    BaseFirst(l, v);
    if l.heads[v].size - nb >= MIN_CHUNK_SIZE {
      ServeSteps(l, v, nb);
    }
  }

  /** The remainder goes to the bins. */
  lemma ServeBinned(l: Layout, p: Place, v: Addr, nb: nat)
    requires CanServe(l, v, nb) && StateOk(l, p)
    ensures StateOk(Served(l, v, nb), PlaceAfter(p, v, nb, l.heads[v].size))
  {
    hide ShapeOk, OnGrid, Placed, Served;
    ServeShape(l, v, nb);
    ServePlaced(l, v, nb, p);
  }

  /** The place with the remainder as the designated victim, and the old one in the small bins. */
  function VictimAfter(p: Place, v: Addr, nb: nat, size: nat): Place
    requires nb <= size
  {
    var p1 := WithoutChunk(p, v);
    if size - nb < MIN_CHUNK_SIZE then p1
    else
      var p2 := if p1.dvsize == 0 then p1 else p1.(small := p1.small[p1.dv := p1.dvsize]);
      p2.(dv := v + nb, dvsize := size - nb)
  }

  lemma ServeVictim(l: Layout, p: Place, v: Addr, nb: nat)
    requires CanServe(l, v, nb) && StateOk(l, p)
    requires p.dvsize < MIN_LARGE_SIZE || p.dv == v
    ensures StateOk(Served(l, v, nb), VictimAfter(p, v, nb, l.heads[v].size))
  {
    hide ShapeOk, OnGrid, Placed, Served;
    ServeShape(l, v, nb);
    ServeLoose(l, v, nb, p);
    ServedTop(l, v, nb);
    if l.heads[v].size - nb >= MIN_CHUNK_SIZE {
      var l', p1 := Served(l, v, nb), WithoutChunk(p, v);
      if p1.dvsize != 0 {
        RetireVictim(l', {v + nb}, p1);
        MakeVictim(l', {v + nb}, p1.(dv := 0, dvsize := 0, small := p1.small[p1.dv := p1.dvsize]), v + nb);
      } else {
        MakeVictim(l', {v + nb}, p1, v + nb);
      }
      assert {v + nb} - {v + nb} == {};
    }
  }

  lemma ServeTop(l: Layout, p: Place, nb: nat)
    requires l.top in l.heads && MIN_CHUNK_SIZE <= nb < l.heads[l.top].size && OnGrid(nb) && StateOk(l, p)
    ensures StateOk(FromTop(l, nb), p) && HandedOut(Live(l), Live(FromTop(l, nb)), l.top, nb) && l.top >= l.base
    ensures l.top + nb in FromTop(l, nb).heads && FromTop(l, nb).heads[l.top + nb].size == l.heads[l.top].size - nb
  {
    hide ShapeOk, OnGrid, Placed;
    FromTopOk(l, nb);
    FromTopChunks(l, nb, {});
    SameFree(l, {}, FromTop(l, nb), {}, p);
    BaseFirst(l, l.top);
  }
}

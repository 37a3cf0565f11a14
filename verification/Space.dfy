/**
 An allocator space over one fixed segment: malloc, free, realloc and memalign. The heads
 and feet are changed as the allocator changes them; the bins are those of
 `MallocStates`.
 */
module Spaces {
  import opened MallocUnits
  import opened HeapShape
  import opened HeapBins
  import opened HeapServe
  import opened HeapChoice
  import opened HeapDispose
  import opened HeapResize
  import opened Alignments
  import T = TreeBins
  import S = SmallBins
  import opened BitMaps
  import M = MallocStates

  const MAX_SMALL_REQUEST: nat := 240
  const MIN_REQUEST: nat := 23
  const MAX_REQUEST: nat := WORD - 128

  /** `request2size` */
  function RequestToSize(bytes: nat): (nb: nat)
    ensures OnGrid(nb) && MIN_CHUNK_SIZE <= nb && bytes + OVERHEAD <= nb
    ensures nb < bytes + OVERHEAD + ALIGNMENT || nb == MIN_CHUNK_SIZE
  {
    if bytes < MIN_REQUEST then MIN_CHUNK_SIZE else (bytes + OVERHEAD + 7) / 8 * 8
  }

  /** What is asked of `malloc` to serve an aligned request: room to move up in besides. */
  function WithRoom(bytes: nat, alignment: nat): nat {
    if alignment <= ALIGNMENT then bytes
    else RequestToSize(bytes) + Rounded(alignment) + MIN_CHUNK_SIZE - OVERHEAD
  }

  class Space {
    const bins: M.MallocState
    const base: Addr
    const end: Addr
    var heads: map<Addr, Head>
    var foots: map<Addr, nat>
    var top: Addr
    var topsize: nat

    function Lay(): Layout
      reads this
    {
      Layout(heads, foots, base, end, top)
    }

    ghost function Kept(): Place
      reads bins
    {
      Place(bins.dv, bins.dvsize, T.Sizes(bins.chunks), bins.small)
    }

    /** The well-formedness that the allocator's own `do_check` routines spell out. */
    ghost predicate Valid()
      reads this, bins, bins.treebins
    {
      && bins.Valid() && HeadsValid() && StateOk(Lay(), Kept())
    }

    ghost predicate HeadsValid()
      reads this, bins
    {
      && top in heads && topsize == heads[top].size
      && 0 < base < end < base + SIZE_LIMIT && (bins.dvsize == 0 ==> bins.dv == 0)
    }

    /** `create_mspace_with_base`, with what is left of the segment as the top chunk */
    constructor (tbase: Addr, size: nat)
      requires OnGrid(tbase) && tbase > 0 && 0 < size < SIZE_LIMIT
      ensures Valid() && Live(Lay()) == map[] && topsize == size && base == tbase
      ensures fresh(bins) && fresh(bins.treebins)
    {
      hide T.BinsOk, StateOk, Live, S.SmallOk;
      bins := new M.MallocState();
      base, end := tbase, tbase + size;
      heads, foots := map[tbase := Head(size, true, false)], map[];
      top, topsize := tbase, size;
      new;
      FreshState(base, end);
      assert Kept() == Place(0, 0, map[], map[]);
    }

    /** What `Valid` says of a free chunk: its neighbours are in use, its size is at its foot, and
        it is in exactly one place, in a bin that is right for its size. */
    lemma FreeChunk(a: Addr)
      requires Valid() && IsFree(Lay(), a) && a != top
      ensures heads[a].pinuse && InUse(Lay(), NextOf(Lay(), a)) && NextOf(Lay(), a) != top
      ensures NextOf(Lay(), a) in foots && foots[NextOf(Lay(), a)] == heads[a].size
      ensures var p, s := Kept(), heads[a].size;
              var victim, tree, small := p.dvsize != 0 && p.dv == a, a in p.tree, a in p.small;
              && (victim || tree || small) && !(victim && tree) && !(victim && small) && !(tree && small)
              && (victim ==> p.dvsize == s) && (tree ==> p.tree[a] == s >= MIN_LARGE_SIZE)
                && (small ==> p.small[a] == s < MIN_LARGE_SIZE)
    {
      hide T.BinsOk, ShapeOk, OnGrid, S.SmallOk;
      FreeInside(Lay(), a);
      PlacedAt(Lay(), {}, Kept(), a);
    }

    /** And of two live chunks: their payloads are aligned, do not overlap and are in the segment. */
    lemma LiveChunks(a: Addr, b: Addr)
      requires Valid() && a in Live(Lay()) && b in Live(Lay()) && a < b
      ensures (a + 16) % ALIGNMENT == 0 && base <= a && a + 16 + (Live(Lay())[a] - OVERHEAD) <= b + 16
      ensures b + Live(Lay())[b] <= end
    {
      hide T.BinsOk, ShapeOk, S.SmallOk;
      Payloads(Lay(), a, b);
      UseFacts(Lay(), Kept(), a);
    }

    // ----- the bins -----

    method UnlinkChunk(a: Addr, s: nat)
      requires bins.Valid()
      requires if s < MIN_LARGE_SIZE then a in bins.small && bins.small[a] == s && a !in bins.chunks
               else a in bins.chunks && a !in bins.small
      requires bins.dvsize == 0 || a != bins.dv
      modifies bins, bins.treebins
      ensures bins.Valid() && Kept() == WithoutChunk(old(Kept()), a)
      ensures bins.dv == old(bins.dv) && bins.dvsize == old(bins.dvsize)
    {
      hide T.BinsOk, S.SmallOk;
      M.SizesKeys(bins.chunks);
      if s < MIN_LARGE_SIZE {
        bins.UnlinkSmall(a, s);
        assert Kept().tree - {a} == Kept().tree;
      } else {
        bins.UnlinkLarge(a);
        assert bins.small - {a} == bins.small;
      }
    }

    method InsertChunk(a: Addr, s: nat)
      requires bins.Valid() && a !in bins.chunks && a !in bins.small && a != 0 && s < SIZE_LIMIT && OnGrid(s)
      modifies bins, bins.treebins
      ensures bins.Valid() && Kept() == WithChunk(old(Kept()), a, s)
      ensures bins.dv == old(bins.dv) && bins.dvsize == old(bins.dvsize)
    {
      bins.InsertChunk(a, s);
    }

    // ----- serving a request -----

    /** The heads and feet after the front of the free chunk `v` is handed out. */
    method SetServed(v: Addr, nb: nat)
      requires CanServe(Lay(), v, nb)
      modifies this`heads, this`foots
      ensures Lay() == Served(old(Lay()), v, nb)
    {
      hide OnGrid;
      var size := heads[v].size;
      var n := v + size;
      if size - nb < MIN_CHUNK_SIZE {
        heads := heads[v := heads[v].(cinuse := true)];
        heads := heads[n := heads[n].(pinuse := true)];
      } else {
        heads := heads[v := Head(nb, true, true)];
        heads := heads[v + nb := Head(size - nb, true, false)];
        foots := foots[n := size - nb];
      }
    }

    /** The designated victim serves the request. */
    method FromVictim(nb: nat) returns (p: Addr)
      requires Valid() && bins.dvsize != 0 && OnGrid(nb) && MIN_CHUNK_SIZE <= nb <= bins.dvsize
      modifies this`heads, this`foots, bins`dv, bins`dvsize
      ensures Valid() && HandedOut(old(Live(Lay())), Live(Lay()), p, nb) && p != 0
      ensures !Exhausted(old(Lay()), nb)
      ensures p == old(bins.dv) && p != top && VictimLeft(old(Lay()), old(Kept()), nb, p, Kept())
    {
      hide ShapeOk, OnGrid, T.BinsOk, Placed, Served, Live, HandedOut, S.SmallOk, VictimLeft;
      ghost var l, pl := Lay(), Kept();
      p := bins.dv;
      Servable(l, pl, p, nb);
      NotExhausted(l, p, nb);
      ServeState(l, pl, p, nb);
      ServeVictim(l, pl, p, nb);
      AfterVictim(l, pl, nb, p);
      var rsize := bins.dvsize - nb;
      if rsize >= MIN_CHUNK_SIZE {
        bins.dv, bins.dvsize := p + nb, rsize;
      } else {
        bins.dvsize, bins.dv := 0, 0;
      }
      SetServed(p, nb);
    }

    /** The top chunk serves the request. */
    method FromTopChunk(nb: nat) returns (p: Addr)
      requires Valid() && OnGrid(nb) && MIN_CHUNK_SIZE <= nb < topsize
      modifies this`heads, this`top, this`topsize
      ensures Valid() && HandedOut(old(Live(Lay())), Live(Lay()), p, nb) && p != 0
      ensures !Exhausted(old(Lay()), nb)
      ensures p == old(top) && old(heads)[p].size >= nb
    {
      hide ShapeOk, OnGrid, T.BinsOk, Placed, Live, HandedOut, S.SmallOk;
      ghost var l := Lay();
      ServeTop(l, Kept(), nb);
      topsize := topsize - nb;
      p := top;
      top := p + nb;
      heads := heads[p := Head(nb, true, true)];
      heads := heads[top := Head(topsize, true, false)];
      assert Lay() == FromTop(l, nb);
    }

    // ----- malloc -----

    /** The bins hold what the free chunks say, in particular no overlapping chunks. */
    lemma BinsOrderly()
      requires Valid()
      ensures bins.Orderly()
      ensures forall a :: a in bins.chunks ==> a in Kept().tree && Kept().tree[a] == bins.chunks[a].size
    {
      hide T.BinsOk, ShapeOk, OnGrid, Placed, S.SmallOk;
      var l, pl := Lay(), Kept();
      PlacedApart(l, pl);
      forall a | a in pl.tree ensures MIN_LARGE_SIZE <= pl.tree[a] < SIZE_LIMIT {
        PlacedAt(l, {}, pl, a);
        BelowTop(l, a);
        BaseFirst(l, a);
      }
    }

    /** The first chunk of small bin `i` serves the request whole, or its remainder becomes the
        designated victim. */
    method FromSmall(nb: nat, i: nat) returns (p: Addr)
      requires Valid() && OnGrid(nb) && MIN_CHUNK_SIZE <= nb <= S.IndexToSize(i) && i in Marked(bins.smallmap)
      requires S.IndexToSize(i) - nb < MIN_CHUNK_SIZE || bins.dvsize < MIN_LARGE_SIZE
      modifies this`heads, this`foots, bins, bins.treebins
      ensures Valid() && HandedOut(old(Live(Lay())), Live(Lay()), p, nb) && p != 0
      ensures !Exhausted(old(Lay()), nb)
      ensures p in old(bins.small) && old(bins.small)[p] == S.IndexToSize(i) && p != top
      ensures VictimLeft(old(Lay()), old(Kept()), nb, p, Kept())
    {
      hide ShapeOk, OnGrid, T.BinsOk, Placed, Served, Live, HandedOut, S.SmallOk, VictimLeft;
      ghost var l, pl := Lay(), Kept();
      S.FirstOf(bins.links, bins.smallmap, bins.small, bins.order, i);
      p := bins.links[S.Bin(i)].fd.a;
      var s := S.IndexToSize(i);
      M.SizesKeys(bins.chunks);
      Servable(l, pl, p, nb);
      NotExhausted(l, p, nb);
      ServeState(l, pl, p, nb);
      if bins.dvsize != 0 {
        VictimKept(l, pl);
      }
      UnlinkChunk(p, s);
      SmallLeft(l, pl, nb, p);
      var rsize := s - nb;
      if rsize >= MIN_CHUNK_SIZE {
        ServeVictim(l, pl, p, nb);
        bins.ReplaceVictim(p + nb, rsize);
      } else {
        ServeBinned(l, pl, p, nb);
      }
      SetServed(p, nb);
    }

    /** A chunk of the tree bins serves a small request. */
    method FromTreeSmall(nb: nat) returns (p: Addr)
      requires Valid() && OnGrid(nb) && MIN_CHUNK_SIZE <= nb < MIN_LARGE_SIZE && bins.dvsize < MIN_LARGE_SIZE
               && bins.treemap != Zero()
      modifies this`heads, this`foots, bins, bins.treebins
      ensures Valid() && HandedOut(old(Live(Lay())), Live(Lay()), p, nb) && p != 0
      ensures !Exhausted(old(Lay()), nb)
      ensures p in old(Kept()).tree && old(Kept()).tree[p] >= nb && p != top
      ensures forall a :: a in old(Kept()).tree ==> old(Kept()).tree[p] <= old(Kept()).tree[a]
      ensures VictimLeft(old(Lay()), old(Kept()), nb, p, Kept())
    {
      hide ShapeOk, OnGrid, T.BinsOk, Placed, Served, Live, HandedOut, S.SmallOk, VictimLeft;
      BinsOrderly();
      ghost var l, pl := Lay(), Kept();
      M.SizesKeys(bins.chunks);
      ghost var sizes := bins.chunks;
      p := bins.TmallocSmall(nb);
      assert sizes[p].size == pl.tree[p] >= MIN_LARGE_SIZE by {
        PlacedAt(l, {}, pl, p);
      }
      Servable(l, pl, p, nb);
      NotExhausted(l, p, nb);
      ServeState(l, pl, p, nb);
      ServeVictim(l, pl, p, nb);
      AfterVictim(l, pl, nb, p);
      assert pl.small - {p} == pl.small;
      assert Kept() == VictimAfter(pl, p, nb, l.heads[p].size);
      SetServed(p, nb);
    }

    /** A chunk of the tree bins serves a large request, if a smallest fitting one is better than
        the designated victim. */
    method FromTreeLarge(nb: nat) returns (p: Addr)
      requires Valid() && OnGrid(nb) && MIN_LARGE_SIZE <= nb < WORD
      modifies this`heads, this`foots, bins, bins.treebins
      ensures Valid()
      ensures p != 0 ==> HandedOut(old(Live(Lay())), Live(Lay()), p, nb) && !Exhausted(old(Lay()), nb)
      ensures p == 0 ==> Lay() == old(Lay()) && Kept() == old(Kept())
      ensures p == 0 ==> forall a :: a in Kept().tree ==> Kept().tree[a] < nb || nb <= bins.dvsize <= Kept().tree[a]
      ensures p != 0 ==>
        && M.BestFor(old(Kept()).tree, nb, p) && p != top
        && (nb <= old(bins.dvsize) ==> old(Kept()).tree[p] < old(bins.dvsize))
        && VictimLeft(old(Lay()), old(Kept()), nb, p, Kept())
    {
      hide ShapeOk, OnGrid, T.BinsOk, Placed, Served, Live, HandedOut, S.SmallOk, VictimLeft;
      BinsOrderly();
      VictimBelow();
      ghost var l, pl := Lay(), Kept();
      M.SizesKeys(bins.chunks);
      p := bins.TmallocLarge(nb);
      if p != 0 {
        Servable(l, pl, p, nb);
        NotExhausted(l, p, nb);
        ServeState(l, pl, p, nb);
        ServeBinned(l, pl, p, nb);
        AfterLarge(l, pl, nb, p);
        assert pl.small - {p} == pl.small;
        assert Kept() == PlaceAfter(pl, p, nb, l.heads[p].size);
        SetServed(p, nb);
      }
    }

    lemma VictimBelow()
      requires Valid()
      ensures bins.dvsize < SIZE_LIMIT
    {
      hide ShapeOk, OnGrid, T.BinsOk, Placed, S.SmallOk;
      if bins.dvsize != 0 {
        PlacedAt(Lay(), {}, Kept(), bins.dv);
        BelowTop(Lay(), bins.dv);
        BaseFirst(Lay(), bins.dv);
      }
    }

    lemma NothingFits(nb: nat)
      requires Valid() && topsize <= nb && (bins.dvsize == 0 || bins.dvsize < nb)
      requires forall a :: a in Kept().tree ==> Kept().tree[a] < nb
      requires forall a :: a in bins.small ==> bins.small[a] < nb
      ensures Exhausted(Lay(), nb)
    {
      hide T.BinsOk, ShapeOk, OnGrid, S.SmallOk;
      forall a | a in FreeChunks(Lay(), {}) ensures FreeChunks(Lay(), {})[a] < nb {
        assert Everywhere(Kept())[a] == FreeChunks(Lay(), {})[a];
      }
    }

    /** A request of at most `MAX_SMALL_REQUEST` bytes, from the bins. */
    method MallocFromBins(nb: nat) returns (p: Addr)
      requires Valid() && OnGrid(nb) && MIN_CHUNK_SIZE <= nb < MIN_LARGE_SIZE
      modifies this`heads, this`foots, bins, bins.treebins
      ensures Valid() && topsize == old(topsize)
      ensures p != 0 ==> HandedOut(old(Live(Lay())), Live(Lay()), p, nb) && !Exhausted(old(Lay()), nb)
      ensures p == 0 ==> Lay() == old(Lay()) && Kept() == old(Kept())
      ensures p == 0 && nb > bins.dvsize ==>
        (forall a :: a in Kept().tree ==> Kept().tree[a] < nb) && forall a :: a in bins.small ==> bins.small[a] < nb
      ensures p != 0 ==>
        Chosen(old(Lay()), old(Kept()), nb, p) && VictimLeft(old(Lay()), old(Kept()), nb, p, Kept())
      ensures p == 0 && nb <= bins.dvsize ==> forall a :: !Better(Kept(), nb, a)
    {
      hide T.BinsOk, StateOk, HandedOut, Live, S.SmallOk, Chosen, VictimLeft, Placed, OnGrid;
      ghost var l, pl := Lay(), Kept();
      NowPlaced();
      var idx := S.SmallIndex(nb);
      var smallbits := ShiftRight(bins.smallmap, idx);
      SmallBits(nb);
      SmallSizes(nb);
      if smallbits[0] || smallbits[1] {
        if !smallbits[0] {
          idx := idx + 1;
        }
        p := FromSmall(nb, idx);
        SmallChosen(l, pl, nb, p);
      } else if nb > bins.dvsize {
        if smallbits != Zero() {
          var leftbits := And(ShiftLeft(smallbits, idx), LeftBits(IdxToBit(idx)));
          var i := BitToIdx(LeastBit(leftbits));
          p := FromSmall(nb, i);
          SmallChosen(l, pl, nb, p);
        } else if bins.treemap != Zero() {
          p := FromTreeSmall(nb);
          TreeChosen(l, pl, nb, p);
        } else {
          NoTrees();
          SmallBelow();
          p := 0;
        }
      } else {
        p := 0;
      }
    }

    /** What the bits of the small map say of a request. */
    lemma SmallBits(nb: nat)
      requires Valid() && OnGrid(nb) && nb < MIN_LARGE_SIZE
      ensures var idx := S.SmallIndex(nb);
              var bits := ShiftRight(bins.smallmap, idx);
              var leftbits := And(ShiftLeft(bits, idx), LeftBits(IdxToBit(idx)));
              var i := BitToIdx(LeastBit(leftbits));
              && S.IndexToSize(idx) == nb
              && (bits[0] ==> idx in Marked(bins.smallmap))
              && (!bits[0] && bits[1] ==> idx + 1 in Marked(bins.smallmap))
              && (bits != Zero() && !bits[0] ==> i in Marked(bins.smallmap) && i > idx)
              && (bits == Zero() ==> forall a :: a in bins.small ==> bins.small[a] < nb)
    {
      hide StateOk, T.BinsOk, S.SmallOk;
      var idx := S.SmallIndex(nb);
      var bits := ShiftRight(bins.smallmap, idx);
      ShiftedBack(bins.smallmap, idx);
      var back := ShiftLeft(bits, idx);
      LeftOf(back, idx);
      var leftbits := And(back, LeftBits(IdxToBit(idx)));
      AndSwapped(back, LeftBits(IdxToBit(idx)));
      LeastOf(leftbits);
      MarkedZero(leftbits);
      if bits != Zero() && !bits[0] {
        var j :| 0 <= j < MAP_BITS && bits[j];
        assert idx + j in Marked(leftbits);
      }
      if bits == Zero() {
        ShiftedEmpty(bins.smallmap, idx);
        forall a | a in bins.small ensures bins.small[a] < nb {
          var _ := S.PlaceOf(bins.links, bins.smallmap, bins.small, bins.order, a);
        }
      }
    }

    /** And of the chunks that are smaller than what the bits lead to. */
    lemma SmallSizes(nb: nat)
      requires Valid() && OnGrid(nb) && nb < MIN_LARGE_SIZE
      ensures var idx := S.SmallIndex(nb);
              var bits := ShiftRight(bins.smallmap, idx);
              var leftbits := And(ShiftLeft(bits, idx), LeftBits(IdxToBit(idx)));
              && (!bits[0] ==> forall a :: a in bins.small ==> bins.small[a] != nb)
              && (!bits[1] ==> forall a :: a in bins.small ==> bins.small[a] != nb + 8)
              && (!bits[0] ==> forall a :: a in bins.small && bins.small[a] >= nb ==>
                    bins.small[a] >= S.IndexToSize(BitToIdx(LeastBit(leftbits))))
    {
      hide StateOk, T.BinsOk, S.SmallOk;
      var idx := S.SmallIndex(nb);
      var bits := ShiftRight(bins.smallmap, idx);
      var back := ShiftLeft(bits, idx);
      ShiftedBack(bins.smallmap, idx);
      LeftOf(back, idx);
      AndSwapped(back, LeftBits(IdxToBit(idx)));
      LeastOf(And(back, LeftBits(IdxToBit(idx))));
      MarkedZero(And(back, LeftBits(IdxToBit(idx))));
      var i := BitToIdx(LeastBit(And(back, LeftBits(IdxToBit(idx)))));
      forall j | j in Marked(bins.smallmap) && j > idx ensures i <= j {
        assert j in Marked(back);
        assert j in Marked(And(LeftBits(IdxToBit(idx)), back));
      }
      forall a | a in bins.small ensures NotBelow(bits, nb, i, bins.small[a]) {
        var _ := S.PlaceOf(bins.links, bins.smallmap, bins.small, bins.order, a);
        SizeByBits(bins.smallmap, nb, bins.small[a], i);
      }
    }

    lemma NowPlaced()
      requires Valid()
      ensures Placed(Lay(), {}, Kept())
    {
    }

    lemma VictimNotTop()
      requires Valid() && bins.dvsize != 0
      ensures bins.dv != top
    {
      hide ShapeOk;
      PlacedAt(Lay(), {}, Kept(), bins.dv);
    }

    /** No chunk of a space is as large as the largest request. */
    lemma TooLarge(nb: nat)
      requires Valid() && nb >= SIZE_LIMIT
      ensures Exhausted(Lay(), nb)
      ensures forall p :: !FitsInPlace(Lay(), p, nb)
    {
      hide OnGrid, Placed, T.BinsOk, S.SmallOk, ShapeOk;
      forall a | a in heads ensures a + heads[a].size < base + SIZE_LIMIT && base <= a {
        BelowTop(Lay(), a);
        BaseFirst(Lay(), a);
      }
    }

    lemma NoTrees()
      requires Valid() && bins.treemap == Zero()
      ensures Kept().tree == map[]
    {
      hide ShapeOk, Placed;
      MarkedZero(bins.treemap);
      M.EmptyMap(bins.chunks, bins.treebins[..], Marked(bins.treemap), bins.depth, bins.rings);
    }

    lemma SmallBelow()
      requires Valid()
      ensures forall a :: a in bins.small ==> bins.small[a] < MIN_LARGE_SIZE
    {
      hide T.BinsOk, ShapeOk, S.SmallOk;
    }

    /** `mspace_malloc`: null only if nothing that is free is large enough, or the request is
        too large for any space. */
    method Malloc(bytes: nat) returns (mem: Addr)
      requires Valid() && bytes < WORD
      modifies this, bins, bins.treebins
      ensures Valid()
      ensures mem == 0 <==> Exhausted(old(Lay()), RequestToSize(bytes))
      ensures mem == 0 ==> Lay() == old(Lay()) && Kept() == old(Kept())
      ensures mem != 0 ==> mem > 16 && HandedOut(old(Live(Lay())), Live(Lay()), mem - 16, RequestToSize(bytes))
      ensures mem != 0 ==>
        && Chosen(old(Lay()), old(Kept()), RequestToSize(bytes), mem - 16)
        && VictimLeft(old(Lay()), old(Kept()), RequestToSize(bytes), mem - 16, Kept())
    {
      hide T.BinsOk, StateOk, HandedOut, Live, OnGrid, Exhausted, S.SmallOk, Chosen, VictimLeft, Placed,
          M.MallocState.Valid, ShiftLeft;
      ghost var l, pl := Lay(), Kept();
      NowPlaced();
      var nb, p := 0, 0;
      if bytes <= MAX_SMALL_REQUEST {
        nb := RequestToSize(bytes);
        p := MallocFromBins(nb);
      } else if bytes >= MAX_REQUEST {
        TooLarge(RequestToSize(bytes));
        return 0;
      } else {
        nb := RequestToSize(bytes);
        if bins.treemap != Zero() {
          SmallBelow();
          p := FromTreeLarge(nb);
          if p != 0 {
            TreeChosen(l, pl, nb, p);
          }
        } else {
          NoTrees();
        }
        SmallBelow();
      }
      if p == 0 {
        if nb <= bins.dvsize {
          VictimNotTop();
          VictimChosen(l, pl, nb);
          p := FromVictim(nb);
        } else if nb < topsize {
          TopChosen(l, pl, nb);
          p := FromTopChunk(nb);
          TopLeaves(l, pl, nb);
        } else {
          NothingFits(nb);
          return 0;
        }
      }
      mem := p + 16;
    }

    // ----- free -----

    /** The chunks from `a` up to `e` are one free chunk now: its head, its foot, and the bit
        in the chunk after it. */
    method SetFree(a: Addr, e: Addr)
      requires a < e && e in heads
      modifies this`heads, this`foots
      ensures Lay() == Coalesced(old(Lay()), a, e)
    {
      heads := HeapBinsKept(a, e);
      heads := heads[a := Head(e - a, true, false)];
      heads := heads[e := heads[e].(pinuse := false)];
      foots := foots[e := e - a];
    }

    /** The heads of the chunks that are not strictly between `a` and `e`. */
    function HeapBinsKept(a: Addr, e: Addr): map<Addr, Head>
      reads this
    {
      map b | b in heads && !(a < b < e) :: heads[b]
    }

    /** What is left of the place after the chunk before `p` was dealt with. */
    ghost predicate BackDone(l: Layout, pl: Place, p: Addr, a: Addr)
      requires Linked(l, p)
      reads this, bins, bins.treebins
    {
      && l == Lay() && bins.Valid() && HeadsValid() && a == Front(l, p)
      && (pl.dvsize == 0 ==> pl.dv == 0) && Kept() == BackPlace(l, p, pl)
    }

    /** `p` is put away as it should be. */
    ghost predicate DisposeDone(l: Layout, pl: Place, p: Addr)
      requires Linked(l, p)
      reads this, bins, bins.treebins
    {
      && Lay() == Disposed(l, p) && Kept() == PutAway(l, p, pl) && bins.Valid()
      && top in heads && topsize == heads[top].size && (bins.dvsize == 0 ==> bins.dv == 0)
    }

    /** `dispose_chunk`, and the same steps in `mspace_free`: the chunk `p`, in use, is merged
        with its free neighbours and put away. */
    method Dispose(p: Addr)
      requires Valid() && InUse(Lay(), p)
      modifies this, bins, bins.treebins
      ensures Valid() && Live(Lay()) == old(Live(Lay())) - {p}
      ensures Linked(old(Lay()), p) && Lay() == Disposed(old(Lay()), p)
      ensures VictimFreed(old(Lay()), old(Kept()), p, Kept())
    {
      hide T.BinsOk, StateOk, Live, OnGrid, Disposed, PutAway, S.SmallOk, VictimFreed;
      ghost var l, pl := Lay(), Kept();
      Finds(l, pl, p);
      DisposeState(l, pl, p);
      FreedVictim(l, pl, p);
      M.SizesKeys(bins.chunks);
      var psize := heads[p].size;
      var a, next := p, p + psize;
      if !heads[p].pinuse {
        var prevsize := foots[p];
        a, psize := p - prevsize, psize + prevsize;
        if a != bins.dv {
          UnlinkChunk(a, prevsize);
        } else if heads[next].cinuse {
          VictimGrows(l, pl, p);
          bins.dvsize := psize;
          SetFree(a, next);
          return;
        }
      }
      DisposeForward(p, a, next, psize, l, pl);
    }

    lemma VictimGrows(l: Layout, pl: Place, p: Addr)
      requires StateOk(l, pl) && InUse(l, p) && Linked(l, p) && !l.heads[p].pinuse && l.heads[NextOf(l, p)].cinuse
      requires pl.dvsize != 0 && pl.dv == Front(l, p)
      ensures PutAway(l, p, pl) == pl.(dvsize := NextOf(l, p) - Front(l, p))
      ensures Disposed(l, p) == Coalesced(l, Front(l, p), NextOf(l, p))
      ensures Disposed(l, p).top == l.top && l.top in Disposed(l, p).heads && l.top in l.heads
      ensures Disposed(l, p).heads[l.top].size == l.heads[l.top].size
    {
      hide ShapeOk, OnGrid, Placed;
      Finds(l, pl, p);
      DisposeTop(l, pl, p);
    }

    /** Unless it is merged with the top chunk, that stays as it is. */
    lemma DisposeTop(l: Layout, pl: Place, p: Addr)
      requires StateOk(l, pl) && InUse(l, p) && Linked(l, p) && NextOf(l, p) != l.top
      ensures Disposed(l, p).top == l.top && l.top in Disposed(l, p).heads && l.top in l.heads
      ensures Disposed(l, p).heads[l.top].size == l.heads[l.top].size
    {
      hide ShapeOk, OnGrid, Placed;
      BothEnds(l);
      Neighbours(l, p);
      BelowTop(l, Back(l, p));
    }

    /** The second half: the chunk after `p`. */
    method DisposeForward(p: Addr, a: Addr, next: Addr, psize: nat, ghost l: Layout, ghost pl: Place)
      requires InUse(l, p) && StateOk(l, pl) && Linked(l, p) && BackDone(l, pl, p, a)
      requires next == NextOf(l, p) && psize == next - a
      requires l.heads[next].cinuse ==> a == p || pl.dvsize == 0 || pl.dv != a
      modifies this, bins, bins.treebins
      ensures DisposeDone(l, pl, p)
    {
      hide T.BinsOk, StateOk, OnGrid, PutAway, BackPlace, S.SmallOk;
      Finds(l, pl, p);
      PutAwayCases(l, pl, p);
      M.SizesKeys(bins.chunks);
      if next == top {
        IntoTop(p, a, psize, l, pl);
        return;
      }
      DisposeTop(l, pl, p);
      DisposedIs(l, p);
      hide Disposed;
      if !heads[next].cinuse {
        MergeForward(p, a, next, psize, l, pl);
      } else {
        SetFree(a, next);
        M.SizesKeys(bins.chunks);
        InsertChunk(a, psize);
      }
    }

    /** The chunk after `p` is free, and not the top chunk. */
    method MergeForward(p: Addr, a: Addr, next: Addr, psize: nat, ghost l: Layout, ghost pl: Place)
      requires InUse(l, p) && StateOk(l, pl) && Linked(l, p) && BackDone(l, pl, p, a)
      requires next == NextOf(l, p) && psize == next - a && next != top && IsFree(l, next)
      modifies this, bins, bins.treebins
      ensures DisposeDone(l, pl, p)
    {
      hide T.BinsOk, StateOk, OnGrid, PutAway, BackPlace, S.SmallOk, Disposed, Coalesced;
      Finds(l, pl, p);
      PutAwayCases(l, pl, p);
      DisposeTop(l, pl, p);
      DisposedIs(l, p);
      M.SizesKeys(bins.chunks);
      if next == bins.dv {
        var dsize := bins.dvsize + psize;
        bins.dvsize := dsize;
        SetFree(a, a + dsize);
        bins.dv := a;
        return;
      }
      var nsize := heads[next].size;
      var size := psize + nsize;
      UnlinkChunk(next, nsize);
      SetFree(a, a + size);
      if a == bins.dv {
        bins.dvsize := size;
        return;
      }
      M.SizesKeys(bins.chunks);
      InsertChunk(a, size);
    }

    /** The chunk after `p` is the top chunk. */
    method IntoTop(p: Addr, a: Addr, psize: nat, ghost l: Layout, ghost pl: Place)
      requires InUse(l, p) && StateOk(l, pl) && Linked(l, p) && BackDone(l, pl, p, a)
      requires NextOf(l, p) == l.top && psize == l.top - a
      modifies this, bins`dv, bins`dvsize
      ensures DisposeDone(l, pl, p)
    {
      hide T.BinsOk, StateOk, OnGrid, PutAway, BackPlace, S.SmallOk;
      Finds(l, pl, p);
      PutAwayCases(l, pl, p);
      topsize := topsize + psize;
      heads := HeapBinsKept(a, end);
      top := a;
      heads := heads[a := Head(topsize, true, false)];
      if a == bins.dv {
        bins.dv, bins.dvsize := 0, 0;
      }
    }

    /** `mspace_free` */
    method Free(mem: Addr)
      requires Valid() && (mem == 0 || (mem >= 16 && mem - 16 in Live(Lay())))
      modifies this, bins, bins.treebins
      ensures Valid()
      ensures Live(Lay()) == if mem == 0 then old(Live(Lay())) else old(Live(Lay())) - {mem - 16}
      ensures if mem == 0 then Kept() == old(Kept()) else VictimFreed(old(Lay()), old(Kept()), mem - 16, Kept())
    {
      hide StateOk, T.BinsOk, Linked, Disposed, S.SmallOk;
      if mem != 0 {
        Dispose(mem - 16);
      }
    }

    // ----- realloc -----

    /** `set_inuse` on both parts of a chunk that is cut after `nb` bytes. */
    method SetCut(p: Addr, nb: nat)
      requires CanCut(Lay(), p, nb) && NextOf(Lay(), p) in heads && heads[NextOf(Lay(), p)].pinuse
      modifies this`heads
      ensures Lay() == Cut(old(Lay()), p, nb)
    {
      hide OnGrid;
      var rsize := heads[p].size - nb;
      heads := heads[p := heads[p].(size := nb)];
      heads := heads[p + nb := Head(rsize, true, true)];
    }

    /** Gives back what a chunk in use has beyond `nb` bytes. */
    method GiveBack(p: Addr, nb: nat)
      requires Valid() && CanCut(Lay(), p, nb)
      modifies this, bins, bins.treebins
      ensures Valid() && Live(Lay()) == old(Live(Lay()))[p := nb]
    {
      hide T.BinsOk, StateOk, OnGrid, Live, S.SmallOk;
      ghost var l, pl := Lay(), Kept();
      CutState(l, pl, p, nb);
      LiveAt(l, p);
      SetCut(p, nb);
      TailGone(l, p, nb);
      Dispose(p + nb);
    }

    /** The chunk `p` swallows the free chunk after it, which has left the bins. */
    method SetAbsorbed(p: Addr)
      requires CanAbsorb(Lay(), p) && NextOf(Lay(), NextOf(Lay(), p)) in heads && heads[NextOf(Lay(), p)].size > 0
      modifies this`heads
      ensures Lay() == Absorbed(old(Lay()), p)
    {
      var n := p + heads[p].size;
      var e := n + heads[n].size;
      var newsize := heads[p].size + heads[n].size;
      heads := (heads - {n})[p := heads[p].(size := newsize)];
      heads := heads[e := heads[e].(pinuse := true)];
    }

    /** `try_realloc_chunk`: in place, by cutting, or by extending into what is free behind. */
    method TryRealloc(p: Addr, nb: nat) returns (ok: bool)
      requires Valid() && InUse(Lay(), p) && OnGrid(nb) && nb >= MIN_CHUNK_SIZE
      modifies this, bins, bins.treebins
      ensures Valid()
      ensures ok ==> Resized(old(Live(Lay())), Live(Lay()), p, nb)
      ensures ok <==> FitsInPlace(old(Lay()), p, nb)
      ensures !ok ==> Lay() == old(Lay()) && Kept() == old(Kept())
    {
      hide T.BinsOk, StateOk, OnGrid, Live, Resized, S.SmallOk;
      ghost var l, pl := Lay(), Kept();
      LiveAt(l, p);
      UseFacts(l, pl, p);
      var oldsize := heads[p].size;
      var next := p + oldsize;
      if oldsize >= nb {
        var rsize := oldsize - nb;
        if rsize >= MIN_CHUNK_SIZE {
          GiveBack(p, nb);
          ResizedTo(Live(l), Live(Lay()), p, nb, nb);
        } else {
          LiveSame(l, p);
          ResizedTo(Live(l), Live(l), p, nb, oldsize);
        }
        return true;
      }
      if next == top {
        ok := ExtendIntoTop(p, nb);
      } else if next == bins.dv {
        ok := ExtendIntoVictim(p, nb);
      } else if !heads[next].cinuse {
        ok := ExtendIntoFree(p, nb);
      } else {
        ok := false;
      }
    }

    method ExtendIntoTop(p: Addr, nb: nat) returns (ok: bool)
      requires Valid() && InUse(Lay(), p) && OnGrid(nb) && nb >= MIN_CHUNK_SIZE
      requires NextOf(Lay(), p) == top && heads[p].size < nb
      modifies this`heads, this`top, this`topsize
      ensures Valid()
      ensures ok <==> FitsInPlace(old(Lay()), p, nb)
      ensures ok ==> Resized(old(Live(Lay())), Live(Lay()), p, nb)
      ensures !ok ==> Lay() == old(Lay())
    {
      hide T.BinsOk, StateOk, OnGrid, Live, Resized, S.SmallOk;
      ghost var l, pl := Lay(), Kept();
      LiveAt(l, p);
      UseFacts(l, pl, p);
      var oldsize := heads[p].size;
      ok := oldsize + topsize > nb;
      if ok {
        IntoTopState(l, pl, p, nb);
        var newtopsize := oldsize + topsize - nb;
        var newtop := p + nb;
        heads := (heads - {top})[p := heads[p].(size := nb)];
        heads := heads[newtop := Head(newtopsize, true, false)];
        top, topsize := newtop, newtopsize;
        assert Lay() == HeapShape.IntoTop(l, p, nb);
        ResizedTo(Live(l), Live(Lay()), p, nb, nb);
      }
    }

    method ExtendIntoVictim(p: Addr, nb: nat) returns (ok: bool)
      requires Valid() && InUse(Lay(), p) && OnGrid(nb) && nb >= MIN_CHUNK_SIZE
      requires NextOf(Lay(), p) != top && bins.dvsize != 0 && NextOf(Lay(), p) == bins.dv && heads[p].size < nb
      modifies this`heads, this`foots, bins`dv, bins`dvsize
      ensures Valid()
      ensures ok <==> FitsInPlace(old(Lay()), p, nb)
      ensures ok ==> Resized(old(Live(Lay())), Live(Lay()), p, nb)
      ensures !ok ==> Lay() == old(Lay()) && Kept() == old(Kept())
      ensures ok ==>
        var rest := old(heads[p].size) + old(bins.dvsize) - nb;
        if rest >= MIN_CHUNK_SIZE then bins.dv == p + nb && bins.dvsize == rest else bins.dvsize == 0
    {
      hide T.BinsOk, StateOk, OnGrid, Live, Resized, S.SmallOk;
      ghost var l, pl := Lay(), Kept();
      LiveAt(l, p);
      UseFacts(l, pl, p);
      VictimFacts(l, pl);
      var oldsize, dvs := heads[p].size, bins.dvsize;
      ok := oldsize + dvs >= nb;
      if ok {
        AbsorbState(l, pl, p);
        var dsize := oldsize + dvs - nb;
        SetAbsorbed(p);
        bins.dv, bins.dvsize := 0, 0;
        AbsorbedNext(l, p);
        hide Absorbed;
        if dsize >= MIN_CHUNK_SIZE {
          TailToVictim(p, nb);
          ResizedTo(Live(l), Live(Lay()), p, nb, nb);
        } else {
          ResizedTo(Live(l), Live(Lay()), p, nb, oldsize + dvs);
        }
      }
    }

    /** What the chunk `p` has beyond `nb` bytes becomes the designated victim. */
    method TailToVictim(p: Addr, nb: nat)
      requires Valid() && bins.dvsize == 0 && CanCut(Lay(), p, nb)
      requires NextOf(Lay(), p) in heads && InUse(Lay(), NextOf(Lay(), p))
      modifies this`heads, this`foots, bins`dv, bins`dvsize
      ensures Valid() && Live(Lay()) == old(Live(Lay()))[p := nb]
      ensures bins.dv == p + nb && bins.dvsize == old(heads[p].size) - nb
    {
      hide T.BinsOk, StateOk, OnGrid, Live, Cut, Coalesced, S.SmallOk;
      ghost var l, pl := Lay(), Kept();
      VictimTail(l, pl, p, nb);
      var dsize := heads[p].size - nb;
      SetCut(p, nb);
      SetFree(p + nb, p + nb + dsize);
      bins.dv, bins.dvsize := p + nb, dsize;
    }

    method ExtendIntoFree(p: Addr, nb: nat) returns (ok: bool)
      requires Valid() && InUse(Lay(), p) && OnGrid(nb) && nb >= MIN_CHUNK_SIZE && heads[p].size < nb
      requires NextOf(Lay(), p) != top && !(bins.dvsize != 0 && NextOf(Lay(), p) == bins.dv)
               && IsFree(Lay(), NextOf(Lay(), p))
      modifies this, bins, bins.treebins
      ensures Valid()
      ensures ok <==> FitsInPlace(old(Lay()), p, nb)
      ensures ok ==> Resized(old(Live(Lay())), Live(Lay()), p, nb)
      ensures !ok ==> Lay() == old(Lay()) && Kept() == old(Kept())
    {
      hide T.BinsOk, StateOk, OnGrid, Live, Resized, S.SmallOk, Absorbed, Front, Back, Linked;
      ghost var l, pl := Lay(), Kept();
      LiveAt(l, p);
      UseFacts(l, pl, p);
      Finds(l, pl, p);
      M.SizesKeys(bins.chunks);
      var oldsize := heads[p].size;
      var next := p + oldsize;
      var nextsize := heads[next].size;
      ok := oldsize + nextsize >= nb;
      if ok {
        AbsorbState(l, pl, p);
        UnlinkChunk(next, nextsize);
        SetAbsorbed(p);
        KeepFront(p, nb, Live(l));
      }
    }

    /** The chunk `p` has grown; what it has beyond `nb` bytes is given back if it can be a chunk. */
    method KeepFront(p: Addr, nb: nat, ghost live: map<Addr, nat>)
      requires Valid() && InUse(Lay(), p) && OnGrid(nb) && nb >= MIN_CHUNK_SIZE && heads[p].size >= nb
      requires p in live && Live(Lay()) == live[p := heads[p].size]
      modifies this, bins, bins.treebins
      ensures Valid() && Resized(live, Live(Lay()), p, nb)
    {
      hide T.BinsOk, StateOk, OnGrid, Live, Resized, S.SmallOk;
      var size := heads[p].size;
      if size - nb < MIN_CHUNK_SIZE {
        ResizedTo(live, Live(Lay()), p, nb, size);
      } else {
        CanCutSum(Lay(), p, nb);
        GiveBack(p, nb);
        ResizedTo(live, Live(Lay()), p, nb, nb);
      }
    }

    /** `mspace_realloc`, without the copying of what the chunk holds. A failure leaves the old
        chunk as it was. */
    method Realloc(oldmem: Addr, bytes: nat) returns (mem: Addr)
      requires Valid() && bytes < WORD && (oldmem == 0 || (oldmem >= 16 && oldmem - 16 in Live(Lay())))
      modifies this, bins, bins.treebins
      ensures Valid()
      ensures mem == 0 <==>
        && Exhausted(old(Lay()), RequestToSize(bytes))
        && (oldmem == 0 || !FitsInPlace(old(Lay()), oldmem - 16, RequestToSize(bytes)))
      ensures mem == 0 ==> Lay() == old(Lay()) && Kept() == old(Kept())
      ensures mem != 0 && oldmem != 0 ==> (mem == oldmem
              <==> FitsInPlace(old(Lay()), oldmem - 16, RequestToSize(bytes)))
      ensures mem != 0 && mem == oldmem ==> Resized(old(Live(Lay())), Live(Lay()), mem - 16, RequestToSize(bytes))
      ensures mem != 0 && mem != oldmem ==>
        && mem > 16
        && HandedOut(if oldmem == 0 then old(Live(Lay())) else old(Live(Lay())) - {oldmem - 16}, Live(Lay()), mem - 16,
          RequestToSize(bytes))
    {
      hide T.BinsOk, StateOk, OnGrid, Resized, Exhausted, S.SmallOk;
      if oldmem == 0 {
        mem := Malloc(bytes);
      } else if bytes >= MAX_REQUEST {
        TooLarge(RequestToSize(bytes));
        mem := 0;
      } else {
        var nb := RequestToSize(bytes);
        ghost var live := Live(Lay());
        var newp := TryRealloc(oldmem - 16, nb);
        if newp {
          mem := oldmem;
        } else {
          mem := Malloc(bytes);
          if mem != 0 {
            MovedAway(live, Live(Lay()), oldmem - 16, mem - 16, nb);
            Free(oldmem);
          }
        }
      }
    }

    // ----- memalign -----

    /** `internal_memalign` for an alignment that is a power of two and at least a chunk. */
    method AlignedChunk(alignment: nat, bytes: nat) returns (mem: Addr)
      requires Valid() && alignment >= MIN_CHUNK_SIZE && OnGrid(alignment) && alignment + bytes < MAX_REQUEST
      modifies this, bins, bins.treebins
      ensures Valid()
      ensures mem == 0 <==>
        Exhausted(old(Lay()), RequestToSize(RequestToSize(bytes) + alignment + MIN_CHUNK_SIZE - OVERHEAD))
      ensures mem == 0 ==> Lay() == old(Lay()) && Kept() == old(Kept())
      ensures mem != 0 ==>
              mem > 16 && mem % alignment == 0 && HandedTo(old(Live(Lay())), Live(Lay()), mem - 16,
                  RequestToSize(bytes))
    {
      hide T.BinsOk, StateOk, Exhausted, Live, S.SmallOk;
      var nb := RequestToSize(bytes);
      var req := nb + alignment + MIN_CHUNK_SIZE - OVERHEAD;
      RequestBound(bytes, alignment);
      ghost var live := Live(Lay());
      mem := Malloc(req);
      if mem == 0 {
        return;
      }
      var p := mem - 16;
      ghost var got := Live(Lay());
      HandedUse(Lay(), live, p, RequestToSize(req));
      if mem % alignment != 0 {
        p := MoveUp(p, alignment, nb);
      }
      TrimTail(p, nb, live);
      mem := p + 16;
    }

    /** Gives back the leading space of the chunk `p`, up to the first aligned place that leaves
        room for a chunk before it. */
    method MoveUp(p: Addr, alignment: nat, nb: nat) returns (newp: Addr)
      requires Valid() && InUse(Lay(), p) && alignment >= MIN_CHUNK_SIZE && OnGrid(alignment) && OnGrid(nb)
               && nb >= MIN_CHUNK_SIZE
      requires (p + 16) % alignment != 0 && heads[p].size >= nb + alignment + MIN_CHUNK_SIZE
      modifies this, bins, bins.treebins
      ensures Valid() && (newp + 16) % alignment == 0 && newp > 0
      ensures newp !in old(Live(Lay())) && newp in Live(Lay()) && Live(Lay())[newp] >= nb
      ensures Live(Lay()) == (old(Live(Lay())) - {p})[newp := Live(Lay())[newp]]
    {
      hide FirstAligned, T.BinsOk, StateOk, Live, OnGrid, Linked, Disposed, S.SmallOk;
      ghost var l, pl := Lay(), Kept();
      UseFacts(l, pl, p);
      var br := FirstAligned(p, alignment);
      AlignedSpot(p, alignment);
      newp := if br - p >= MIN_CHUNK_SIZE then br else br + alignment;
      var leadsize := newp - p;
      CutState(l, pl, p, leadsize);
      HeadMoved(l, p, leadsize);
      SetCut(p, leadsize);
      Dispose(p);
    }

    /** Gives back spare room at the end. */
    method TrimTail(p: Addr, nb: nat, ghost live: map<Addr, nat>)
      requires Valid() && OnGrid(nb) && nb >= MIN_CHUNK_SIZE && p !in live && p in Live(Lay()) && Live(Lay())[p] >= nb
      requires Live(Lay()) == live[p := Live(Lay())[p]]
      modifies this, bins, bins.treebins
      ensures Valid() && HandedTo(live, Live(Lay()), p, nb)
    {
      hide T.BinsOk, StateOk, OnGrid, S.SmallOk;
      var size := heads[p].size;
      if size > nb + MIN_CHUNK_SIZE {
        GiveBack(p, nb);
      }
    }

    /** `mspace_memalign` */
    method Memalign(alignment: nat, bytes: nat) returns (mem: Addr)
      requires Valid() && bytes < WORD && alignment <= 0x8000_0000_0000_0000
      modifies this, bins, bins.treebins
      ensures Valid()
      ensures mem == 0 <==> Exhausted(old(Lay()), RequestToSize(WithRoom(bytes, alignment)))
      ensures mem == 0 ==> Lay() == old(Lay()) && Kept() == old(Kept())
      ensures mem != 0 ==> mem > 16 && mem % (if alignment <= ALIGNMENT then ALIGNMENT else Rounded(alignment)) == 0
      ensures mem != 0 ==> HandedTo(old(Live(Lay())), Live(Lay()), mem - 16, RequestToSize(bytes))
    {
      hide T.BinsOk, StateOk, Exhausted, Live, PowerOfTwo, S.SmallOk;
      if alignment <= ALIGNMENT {
        mem := Malloc(bytes);
        if mem != 0 {
          HandedGrid(Lay(), Kept(), mem - 16);
        }
        return;
      }
      var a := RoundAlignment(alignment);
      PowersOnGrid(a);
      if bytes >= MAX_REQUEST - a {
        TooLarge(RequestToSize(WithRoom(bytes, alignment)));
        mem := 0;
      } else {
        mem := AlignedChunk(a, bytes);
      }
    }
  }

  /** At least a chunk, and a power of two. */
  method RoundAlignment(alignment: nat) returns (a: nat)
    ensures a == Rounded(alignment)
  {
    hide PowerOfTwo;
    ChunkPower();
    a := if alignment < MIN_CHUNK_SIZE then MIN_CHUNK_SIZE else alignment;
    if !PowerOfTwo(a) {
      var n := a;
      a := 2 * ALIGNMENT;
      while a < n
        invariant PowerOfTwo(a) && Doubled(a, n) == Doubled(MIN_CHUNK_SIZE, n)
        decreases n - a
      {
        Twice(a);
        a := 2 * a;
      }
    }
  }

  /** Where a chunk would begin whose payload is the first aligned one from that of `p` on. */
  function FirstAligned(p: Addr, alignment: nat): int
    requires alignment > 0
  {
    (p + 16 + alignment - 1) / alignment * alignment - 16
  }

  /** The first aligned place in a chunk that leaves room for a chunk before it. */
  lemma AlignedSpot(p: Addr, alignment: nat)
    requires OnGrid(p) && OnGrid(alignment) && alignment >= MIN_CHUNK_SIZE && (p + 16) % alignment != 0
    ensures var br := FirstAligned(p, alignment);
            br > p && var newp := if br - p >= MIN_CHUNK_SIZE then br else br + alignment;
            && (newp + 16) % alignment == 0 && OnGrid(newp - p) && MIN_CHUNK_SIZE <= newp - p <= alignment + 24
  {
    hide OnGrid;
    AlignUp(p + 16, alignment);
    var q := (p + 16 + alignment - 1) / alignment;
    GridMultiple(q, alignment);
    SixteenOnGrid();
    GridSum(p, 16);
    var y := q * alignment;
    GridDifference(p + 16, y);
    GridSum(y - (p + 16), alignment);
    AtLeastOne(y - (p + 16));
  }

  lemma SixteenOnGrid()
    ensures OnGrid(16)
  {
  }

  lemma AtLeastOne(d: nat)
    requires OnGrid(d) && d > 0
    ensures d >= ALIGNMENT && (d < MIN_CHUNK_SIZE ==> d <= 24)
  {
  }

  lemma HeadMoved(l: Layout, p: Addr, lead: nat)
    requires CanCut(l, p, lead) && p + lead !in l.heads
    ensures p + lead !in Live(l)
    ensures var live := Live(l)[p := lead][p + lead := l.heads[p].size - lead];
            live - {p} == (Live(l) - {p})[p + lead := l.heads[p].size - lead]
  {
  }

  lemma RequestBound(bytes: nat, alignment: nat)
    requires alignment + bytes < MAX_REQUEST && alignment >= MIN_CHUNK_SIZE
    ensures RequestToSize(bytes) + alignment + MIN_CHUNK_SIZE - OVERHEAD < WORD
  {
  }

  lemma HandedUse(l: Layout, live: map<Addr, nat>, p: Addr, nb: nat)
    requires HandedOut(live, Live(l), p, nb)
    ensures InUse(l, p) && l.heads[p].size == Live(l)[p] >= nb && Live(l) - {p} == live
  {
  }

  lemma HandedGrid(l: Layout, pl: Place, p: Addr)
    requires StateOk(l, pl) && p in Live(l)
    ensures (p + 16) % ALIGNMENT == 0
  {
    UseFacts(l, pl, p);
  }

  /** What a chunk in use knows of itself and what comes after it. */
  lemma UseFacts(l: Layout, pl: Place, p: Addr)
    requires StateOk(l, pl) && InUse(l, p)
    ensures l.heads[p].size >= MIN_CHUNK_SIZE && NextOf(l, p) in l.heads && l.heads[NextOf(l, p)].pinuse && p != l.top
    ensures p >= l.base && OnGrid(l.heads[p].size) && OnGrid(p)
    ensures NextOf(l, p) != l.top && IsFree(l, NextOf(l, p)) ==>
            CanAbsorb(l, p) && NextOf(l, NextOf(l, p)) in l.heads && l.heads[NextOf(l, p)].size > 0
    ensures IsFree(l, l.top) && NextOf(l, l.top) == l.end
  {
    hide ShapeOk, OnGrid, Placed;
    InUseSize(l, p);
    BothEnds(l);
    if NextOf(l, p) != l.top && IsFree(l, NextOf(l, p)) {
      FreeInside(l, NextOf(l, p));
    }
  }

  lemma VictimFacts(l: Layout, pl: Place)
    requires StateOk(l, pl) && pl.dvsize != 0
    ensures IsFree(l, pl.dv) && pl.dv != l.top && l.heads[pl.dv].size == pl.dvsize
  {
    hide ShapeOk;
    PlacedAt(l, {}, pl, pl.dv);
  }

  lemma LiveAt(l: Layout, p: Addr)
    requires InUse(l, p)
    ensures p in Live(l) && Live(l)[p] == l.heads[p].size
  {
  }

  lemma LiveSame(l: Layout, p: Addr)
    requires InUse(l, p)
    ensures Live(l) == Live(l)[p := l.heads[p].size]
  {
  }

  lemma TailGone(l: Layout, p: Addr, nb: nat)
    requires CanCut(l, p, nb) && p + nb !in l.heads
    ensures Live(l)[p := nb][p + nb := l.heads[p].size - nb] - {p + nb} == Live(l)[p := nb]
  {
  }

  lemma CanCutSum(l: Layout, p: Addr, nb: nat)
    requires InUse(l, p) && OnGrid(nb) && nb >= MIN_CHUNK_SIZE && l.heads[p].size >= nb + MIN_CHUNK_SIZE
    ensures CanCut(l, p, nb)
  {
  }

  lemma AbsorbedNext(l: Layout, p: Addr)
    requires CanAbsorb(l, p) && NextOf(l, NextOf(l, p)) in l.heads && InUse(l, NextOf(l, NextOf(l, p)))
    requires l.heads[NextOf(l, p)].size > 0 && l.heads[p].size > 0
    ensures var l', e := Absorbed(l, p), NextOf(l, NextOf(l, p)); p in l'.heads && NextOf(l', p) == e && InUse(l', e)
  {
  }

  /** A chunk in use is cut, and the tail is the designated victim; there was none. */
  lemma VictimTail(l: Layout, pl: Place, p: Addr, nb: nat)
    requires CanCut(l, p, nb) && NextOf(l, p) in l.heads && InUse(l, NextOf(l, p))
    requires StateOk(l, pl) && pl.dvsize == 0
    ensures l.heads[NextOf(l, p)].pinuse
    ensures var l2, r, e := Cut(l, p, nb), p + nb, NextOf(l, p);
            && r < e && e in l2.heads
            && var l3 := Coalesced(l2, r, e);
               && StateOk(l3, pl.(dv := r, dvsize := e - r)) && SameTop(l, l3) && Live(l3) == Live(l)[p := nb]
  {
    hide ShapeOk, OnGrid, Placed;
    CutState(l, pl, p, nb);
    CutNext(l, p, nb);
    TailVictim(Cut(l, p, nb), pl, p + nb);
    TailGone(l, p, nb);
  }

  lemma CutNext(l: Layout, p: Addr, nb: nat)
    requires CanCut(l, p, nb) && p + nb !in l.heads && NextOf(l, p) in l.heads && InUse(l, NextOf(l, p))
    ensures var l' := Cut(l, p, nb);
            p + nb in l'.heads && NextOf(l', p + nb) == NextOf(l, p) && InUse(l', NextOf(l, p)) && InUse(l', p + nb)
                && l'.heads[p + nb].pinuse
    ensures Cut(l, p, nb).heads[p + nb].size == l.heads[p].size - nb
  {
  }

  /** The free chunks, wherever they are kept, are on the grid and do not overlap. */
  lemma PlacedApart(l: Layout, pl: Place)
    requires StateOk(l, pl)
    ensures pl.tree.Keys !! pl.small.Keys && Victim(pl).Keys !! pl.tree.Keys && Victim(pl).Keys !! pl.small.Keys
    ensures M.OnePlace(pl.tree + pl.small + Victim(pl))
  {
    hide ShapeOk;
    var all := FreeChunks(l, {});
    assert pl.tree + pl.small + Victim(pl) == all;
    forall a | a in all ensures OnGrid(all[a]) {
      FreeInside(l, a);
    }
    forall a, b | a in all && b in all && a != b ensures M.Disjoint(a, all[a], b, all[b]) {
      if a < b {
        TwoApart(l, a, b);
      } else {
        TwoApart(l, b, a);
      }
    }
  }

  lemma VictimKept(l: Layout, pl: Place)
    requires StateOk(l, pl) && pl.dvsize != 0
    ensures pl.dv !in pl.small && pl.dv !in pl.tree && OnGrid(pl.dvsize)
  {
    hide ShapeOk;
    PlacedAt(l, {}, pl, pl.dv);
    FreeInside(l, pl.dv);
  }

  lemma FreshState(base: Addr, end: Addr)
    requires OnGrid(base) && base < end
    ensures var l := Layout(map[base := Head(end - base, true, false)], map[], base, end, base);
            StateOk(l, Place(0, 0, map[], map[])) && Live(l) == map[]
  {
    hide ShapeOk;
    FreshShape(base, end);
  }

  /** A chunk that is kept somewhere can serve any request up to its size. */
  lemma Servable(l: Layout, pl: Place, v: Addr, nb: nat)
    requires StateOk(l, pl) && OnGrid(nb) && nb >= MIN_CHUNK_SIZE
    requires (pl.dvsize != 0 && v == pl.dv && nb <= pl.dvsize) || (v in pl.tree && nb <= pl.tree[v])
             || (v in pl.small && nb <= pl.small[v])
    ensures CanServe(l, v, nb)
    ensures pl.dvsize != 0 && v == pl.dv ==> l.heads[v].size == pl.dvsize && v !in pl.tree && v !in pl.small
    ensures v in pl.tree ==> l.heads[v].size == pl.tree[v] && v !in pl.small && !(pl.dvsize != 0 && v == pl.dv)
    ensures v in pl.small ==> l.heads[v].size == pl.small[v] && v !in pl.tree && !(pl.dvsize != 0 && v == pl.dv)
  {
    hide ShapeOk, OnGrid;
    PlacedAt(l, {}, pl, v);
    FreeInside(l, v);
  }

  /** A chunk of a small bin that serves a request: whether or not anything is left of it. */
  lemma SmallLeft(l: Layout, pl: Place, nb: nat, p: Addr)
    requires p in l.heads && nb <= l.heads[p].size < MIN_LARGE_SIZE && p != l.top && !IsVictim(pl, p)
    ensures VictimLeft(l, pl, nb, p, VictimAfter(pl, p, nb, l.heads[p].size))
    ensures l.heads[p].size - nb < MIN_CHUNK_SIZE ==> VictimLeft(l, pl, nb, p, PlaceAfter(pl, p, nb, l.heads[p].size))
  {
  }

  lemma TopLeaves(l: Layout, pl: Place, nb: nat)
    requires l.top in l.heads && l.heads[l.top].size >= nb
    ensures VictimLeft(l, pl, nb, l.top, pl)
  {
  }

  /** What the bits of the request say of the size of a small chunk. */
  predicate NotBelow(bits: BinMap, nb: nat, i: nat, size: nat) {
    (bits[0] || size != nb) && (bits[1] || size != nb + 8) && (bits[0] || size < nb || size >= S.IndexToSize(i))
  }

  lemma SizeByBits(w: BinMap, nb: nat, size: nat, i: nat)
    requires OnGrid(nb) && nb < MIN_LARGE_SIZE && S.SmallIndex(size) in Marked(w)
    requires size == S.IndexToSize(S.SmallIndex(size))
    requires forall j :: j in Marked(w) && j > S.SmallIndex(nb) ==> i <= j
    ensures NotBelow(ShiftRight(w, S.SmallIndex(nb)), nb, i, size)
  {
    var idx := S.SmallIndex(nb);
    assert nb == 8 * idx;
    assert ShiftRight(w, idx)[0] <==> w[idx];
    assert ShiftRight(w, idx)[1] <==> idx + 1 < MAP_BITS && w[idx + 1];
  }
}

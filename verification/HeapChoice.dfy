/**
 Which free chunk a request is served from. The bins come first, then the designated victim, then
 the top chunk; from the bins it is a smallest chunk that fits, and the victim is passed over
 only for a chunk of the size asked or the next, or, if the request is large, for a smaller one.
 */
module HeapChoice {
  import opened MallocUnits
  import opened HeapShape
  import opened HeapBins
  import opened HeapServe

  /** The chunks in the bins, with their sizes. */
  function Binned(pl: Place): map<Addr, nat> {
    pl.tree + pl.small
  }

  /** A smallest chunk in the bins that fits. */
  ghost predicate Smallest(pl: Place, nb: nat, p: Addr) {
    && p in Binned(pl) && Binned(pl)[p] >= nb
    && forall a :: a in Binned(pl) && Binned(pl)[a] >= nb ==> Binned(pl)[p] <= Binned(pl)[a]
  }

  /** A chunk in the bins that is taken even if the victim fits. */
  predicate Better(pl: Place, nb: nat, a: Addr) {
    if nb < MIN_LARGE_SIZE then a in pl.small && nb <= pl.small[a] <= nb + 8
    else a in pl.tree && nb <= pl.tree[a] < pl.dvsize
  }

  predicate IsVictim(pl: Place, p: Addr) {
    pl.dvsize != 0 && p == pl.dv
  }

  ghost predicate Chosen(l: Layout, pl: Place, nb: nat, p: Addr) {
    if p == l.top then forall a :: a in FreeChunks(l, {}) ==> FreeChunks(l, {})[a] < nb
    else if IsVictim(pl, p) then nb <= pl.dvsize && forall a :: !Better(pl, nb, a)
    else Smallest(pl, nb, p) && (nb <= pl.dvsize ==> Better(pl, nb, p))
  }

  /** Who is the designated victim afterwards: what is left of it, or of a chunk that served a small
      request, or the old one; and after it was used up, nobody. */
  predicate VictimLeft(l: Layout, pl: Place, nb: nat, p: Addr, pl': Place) {
    && p in l.heads && nb <= l.heads[p].size
    && var rest := l.heads[p].size - nb;
       if p != l.top && rest >= MIN_CHUNK_SIZE && (IsVictim(pl, p) || nb < MIN_LARGE_SIZE) then
         pl'.dv == p + nb && pl'.dvsize == rest
       else if p != l.top && IsVictim(pl, p) then pl'.dvsize == 0
       else pl'.dv == pl.dv && pl'.dvsize == pl.dvsize
  }

  lemma AfterVictim(l: Layout, pl: Place, nb: nat, p: Addr)
    requires p in l.heads && nb <= l.heads[p].size && p != l.top && (IsVictim(pl, p) || nb < MIN_LARGE_SIZE)
    ensures VictimLeft(l, pl, nb, p, VictimAfter(pl, p, nb, l.heads[p].size))
  {
  }

  lemma AfterLarge(l: Layout, pl: Place, nb: nat, p: Addr)
    requires p in l.heads && nb <= l.heads[p].size && p != l.top && !IsVictim(pl, p) && nb >= MIN_LARGE_SIZE
    ensures VictimLeft(l, pl, nb, p, PlaceAfter(pl, p, nb, l.heads[p].size))
  {
  }

  /** A chunk from a small bin is a smallest one if no small chunk that fits is smaller. */
  lemma SmallChosen(l: Layout, pl: Place, nb: nat, p: Addr)
    requires Placed(l, {}, pl) && nb < MIN_LARGE_SIZE && p in pl.small && pl.small[p] >= nb && p != l.top
    requires forall a :: a in pl.small && pl.small[a] >= nb ==> pl.small[p] <= pl.small[a]
    requires nb <= pl.dvsize ==> pl.small[p] <= nb + 8
    ensures Chosen(l, pl, nb, p)
  {
  }

  lemma TreeChosen(l: Layout, pl: Place, nb: nat, p: Addr)
    requires Placed(l, {}, pl) && p in pl.tree && pl.tree[p] >= nb && p != l.top
    requires forall a :: a in pl.tree && pl.tree[a] >= nb ==> pl.tree[p] <= pl.tree[a]
    requires forall a :: a in pl.small ==> pl.small[a] < nb
    requires nb <= pl.dvsize ==> nb >= MIN_LARGE_SIZE && pl.tree[p] < pl.dvsize
    ensures Chosen(l, pl, nb, p)
  {
  }

  lemma VictimChosen(l: Layout, pl: Place, nb: nat)
    requires Placed(l, {}, pl) && pl.dvsize != 0 && nb <= pl.dvsize && pl.dv != l.top
    requires forall a :: !Better(pl, nb, a)
    ensures Chosen(l, pl, nb, pl.dv)
  {
  }

  lemma TopChosen(l: Layout, pl: Place, nb: nat)
    requires Placed(l, {}, pl) && (pl.dvsize == 0 || pl.dvsize < nb)
    requires forall a :: a in Binned(pl) ==> Binned(pl)[a] < nb
    ensures Chosen(l, pl, nb, l.top)
  {
    forall a | a in FreeChunks(l, {}) ensures FreeChunks(l, {})[a] < nb {
      assert a in Binned(pl) || IsVictim(pl, a);
      assert Everywhere(pl)[a] == FreeChunks(l, {})[a];
    }
  }

  /** So a small request gets a chunk of exactly its size, or else of the next, if a small bin has one. */
  lemma ExactFit(l: Layout, pl: Place, nb: nat, p: Addr, a: Addr)
    requires Placed(l, {}, pl) && Chosen(l, pl, nb, p) && nb < MIN_LARGE_SIZE
    requires a in pl.small && nb <= pl.small[a] <= nb + 8
    requires forall b :: b in pl.small && pl.small[b] >= nb ==> pl.small[b] >= pl.small[a]
    ensures p in FreeChunks(l, {}) && FreeChunks(l, {})[p] == pl.small[a]
  {
    assert a in Everywhere(pl) && Everywhere(pl)[a] == FreeChunks(l, {})[a];
    assert Better(pl, nb, a);
    assert p in Everywhere(pl) && Everywhere(pl)[p] == FreeChunks(l, {})[p];
  }

  /** And whatever fits, a freed chunk among them, is taken before the top chunk is cut. */
  lemma TopLast(l: Layout, pl: Place, nb: nat, p: Addr, a: Addr)
    requires Placed(l, {}, pl) && Chosen(l, pl, nb, p) && a in FreeChunks(l, {}) && FreeChunks(l, {})[a] >= nb
    ensures p in FreeChunks(l, {}) && FreeChunks(l, {})[p] >= nb && p != l.top
    ensures FreeChunks(l, {})[p] <= FreeChunks(l, {})[a] || IsVictim(pl, p) || (IsVictim(pl, a) && Better(pl, nb, p))
  {
    assert a in Everywhere(pl) && Everywhere(pl)[a] == FreeChunks(l, {})[a];
    assert p in Everywhere(pl) && Everywhere(pl)[p] == FreeChunks(l, {})[p];
  }
}

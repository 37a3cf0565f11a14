/** What all parts of the allocator share: addresses, the word, and the sizes of chunks. */
module MallocUnits {
  /** 0 is the null pointer. */
  type Addr = nat

  const WORD: nat := 0x1_0000_0000_0000_0000
  const ALIGNMENT: nat := 8
  const OVERHEAD: nat := 8
  const MIN_CHUNK_SIZE: nat := 32
  const MIN_LARGE_SIZE: nat := 256

  /** No chunk is that large; below it every tree bin index is right. */
  const SIZE_LIMIT: nat := 0x100_0000_0000

  predicate OnGrid(x: nat) {
    x % ALIGNMENT == 0
  }

  // ----- the free chunks in their three places, all in all -----

  lemma OneMore(tree: map<Addr, nat>, small: map<Addr, nat>, victim: map<Addr, nat>, r: Addr, rest: nat)
    requires r !in tree && r !in small && r !in victim
    ensures tree + small[r := rest] + victim == (tree + small + victim)[r := rest]
    ensures tree[r := rest] + small + victim == (tree + small + victim)[r := rest]
    ensures small[r := rest].Keys == small.Keys + {r} && tree[r := rest].Keys == tree.Keys + {r}
  {
    assert tree + small[r := rest] == (tree + small)[r := rest];
    assert tree[r := rest] + small == (tree + small)[r := rest];
    Beside(tree + small, victim, r, rest);
  }

  lemma Beside(all: map<Addr, nat>, more: map<Addr, nat>, r: Addr, rest: nat)
    requires r !in more
    ensures all[r := rest] + more == (all + more)[r := rest]
  {
  }

  lemma OneLess(tree: map<Addr, nat>, small: map<Addr, nat>, victim: map<Addr, nat>, v: Addr)
    requires v in tree && v !in small && v !in victim
    ensures (tree + small + victim)[v] == tree[v]
    ensures (tree - {v}) + small + victim == (tree + small + victim) - {v}
    ensures (tree + small + victim).Keys == tree.Keys + small.Keys + victim.Keys
  {
  }

  lemma LessOf(all: map<Addr, nat>, more: map<Addr, nat>, v: Addr)
    ensures (all + more) - {v} == (all - {v}) + (more - {v})
    ensures v !in all ==> all - {v} == all
  {
  }
}

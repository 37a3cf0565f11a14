/**
 The rings of chunks of equal size, and what holds of the tree bins as a whole.
 `rings` is not stored by the allocator: it lists each ring from its trie node on.
 */
module Rings {
  import opened MallocUnits
  import opened TreeIndex
  import opened TrieBits
  import opened Trie

  type RingMap = map<nat, seq<Addr>>

  function After(k: nat, n: nat): nat {
    if k + 1 < n then k + 1 else 0
  }

  function Before(k: nat, n: nat): nat
    requires k < n
  {
    if k > 0 then k - 1 else n - 1
  }

  predicate Linked(m: Chunks, s: nat, r: seq<Addr>, k: nat)
    requires k < |r|
  {
    && r[k] in m && r[k] != 0 && m[r[k]].size == s
    && m[r[k]].fd == r[After(k, |r|)] && m[r[k]].bk == r[Before(k, |r|)]
  }

  predicate Distinct(r: seq<Addr>) {
    forall j, k :: 0 <= j < k < |r| ==> r[j] != r[k]
  }

  ghost predicate RingOk(m: Chunks, s: nat, r: seq<Addr>) {
    r != [] && Distinct(r) && forall k :: 0 <= k < |r| ==> Linked(m, s, r, k)
  }

  predicate InRing(m: Chunks, rings: RingMap, a: Addr)
    requires a in m
  {
    m[a].size in rings && a in rings[m[a].size]
  }

  ghost predicate RingInv(m: Chunks, rings: RingMap) {
    && (forall s :: s in rings ==> RingOk(m, s, rings[s]))
    && (forall a :: a in m ==> InRing(m, rings, a))
  }

  // ----- changing the links -----

  function SetFd(m: Chunks, a: Addr, v: Addr): Chunks
    requires a in m
  {
    m[a := m[a].(fd := v)]
  }

  function SetBk(m: Chunks, a: Addr, v: Addr): Chunks
    requires a in m
  {
    m[a := m[a].(bk := v)]
  }

  /** `x` comes right after `t` in its ring. */
  function ChainIn(m: Chunks, t: Addr, x: Addr, s: nat): Chunks
    requires t in m && m[t].fd in m
  {
    var f := m[t].fd;
    SetBk(SetFd(m, t, x), f, x)[x := TChunk(s, f, t, 0, 0, Chained, Index(s))]
  }

  /** `x` is passed over by its neighbours. */
  function Unchain(m: Chunks, x: Addr): Chunks
    requires x in m && m[x].fd in m && m[x].bk in m
  {
    SetFd(SetBk(m, m[x].fd, m[x].bk), m[x].bk, m[x].fd)
  }

  predicate SameLinks(c: TChunk, c': TChunk) {
    c.size == c'.size && c.fd == c'.fd && c.bk == c'.bk
  }

  /** The rings of other sizes are not touched. */
  lemma OtherRing(m: Chunks, m': Chunks, s: nat, r: seq<Addr>)
    requires RingOk(m, s, r)
    requires forall k :: 0 <= k < |r| ==> r[k] in m' && r[k] in m && SameLinks(m[r[k]], m'[r[k]])
    ensures RingOk(m', s, r)
  {
    forall k | 0 <= k < |r| ensures Linked(m', s, r, k) {
      assert Linked(m, s, r, k);
    }
  }

  lemma RingFrame(m: Chunks, m': Chunks, rings: RingMap)
    requires RingInv(m, rings) && m'.Keys == m.Keys
    requires forall a :: a in m ==> SameLinks(m[a], m'[a])
    ensures RingInv(m', rings)
  {
    forall s | s in rings ensures RingOk(m', s, rings[s]) {
      assert RingOk(m, s, rings[s]);
      forall k | 0 <= k < |rings[s]| ensures rings[s][k] in m {
        assert Linked(m, s, rings[s], k);
      }
      OtherRing(m, m', s, rings[s]);
    }
    forall a | a in m' ensures InRing(m', rings, a) {
      assert InRing(m, rings, a);
    }
  }

  lemma RingMember(m: Chunks, rings: RingMap, s: nat, k: nat)
    requires RingInv(m, rings) && s in rings && k < |rings[s]|
    ensures Linked(m, s, rings[s], k)
    ensures m[rings[s][k]].fd in m && m[rings[s][k]].bk in m
    ensures m[m[rings[s][k]].fd].size == s && m[m[rings[s][k]].bk].size == s
  {
    assert RingOk(m, s, rings[s]);
    assert Linked(m, s, rings[s], After(k, |rings[s]|)) && Linked(m, s, rings[s], Before(k, |rings[s]|));
  }

  /** A new size gets a ring of its own. */
  lemma NewRing(m: Chunks, rings: RingMap, x: Addr, c: TChunk)
    requires RingInv(m, rings) && x !in m && x != 0 && c.size !in rings && c.fd == x && c.bk == x
    ensures RingInv(m[x := c], rings[c.size := [x]])
  {
    var m', rings' := m[x := c], rings[c.size := [x]];
    forall s | s in rings' ensures RingOk(m', s, rings'[s]) {
      if s != c.size {
        assert RingOk(m, s, rings[s]);
        forall k | 0 <= k < |rings[s]| ensures rings[s][k] in m && rings[s][k] != x {
          assert Linked(m, s, rings[s], k);
        }
        OtherRing(m, m', s, rings[s]);
      } else {
        assert Linked(m', s, [x], 0);
      }
    }
    forall a | a in m' ensures InRing(m', rings', a) {
      if a != x {
        assert InRing(m, rings, a);
      }
    }
  }

  lemma OtherRings(m: Chunks, m': Chunks, rings: RingMap, s: nat)
    requires RingInv(m, rings)
    requires forall a :: a in m && m[a].size != s ==> a in m' && SameLinks(m[a], m'[a])
    ensures forall t :: t in rings && t != s ==> RingOk(m', t, rings[t])
  {
    forall t | t in rings && t != s ensures RingOk(m', t, rings[t]) {
      assert RingOk(m, t, rings[t]);
      forall k | 0 <= k < |rings[t]| ensures rings[t][k] in m && m[rings[t][k]].size == t {
        assert Linked(m, t, rings[t], k);
      }
      OtherRing(m, m', t, rings[t]);
    }
  }

  lemma InsertedLink(m: Chunks, s: nat, r: seq<Addr>, x: Addr, k: nat)
    requires RingOk(m, s, r) && x !in m && x != 0 && k < |r| + 1
    ensures r[0] in m && m[r[0]].fd in m
    ensures Linked(ChainIn(m, r[0], x, s), s, [r[0], x] + r[1..], k)
  {
    assert Linked(m, s, r, 0) && Linked(m, s, r, After(0, |r|));
    if k != 1 {
      assert Linked(m, s, r, if k == 0 then 0 else k - 1);
    }
  }

  lemma InsertInRing(m: Chunks, rings: RingMap, x: Addr, s: nat)
    requires RingInv(m, rings) && s in rings && rings[s] != [] && x !in m && x != 0
    ensures rings[s][0] in m && m[rings[s][0]].fd in m
    ensures RingInv(ChainIn(m, rings[s][0], x, s), rings[s := [rings[s][0], x] + rings[s][1..]])
  {
    var r := rings[s];
    var t := r[0];
    RingMember(m, rings, s, 0);
    var m', r' := ChainIn(m, t, x, s), [t, x] + r[1..];
    var rings' := rings[s := r'];
    assert RingOk(m, s, r);
    forall k | 0 <= k < |r'| ensures Linked(m', s, r', k) {
      InsertedLink(m, s, r, x, k);
    }
    assert Distinct(r') by {
      forall k | 0 <= k < |r| ensures r[k] != x {
        assert Linked(m, s, r, k);
      }
    }
    OtherRings(m, m', rings, s);
    forall a | a in m' ensures InRing(m', rings', a) {
      if a == x {
        assert r'[1] == x;
      } else {
        assert InRing(m, rings, a);
        if m[a].size == s {
          var k :| 0 <= k < |r| && r[k] == a;
          assert r'[if k == 0 then 0 else k + 1] == a;
        }
      }
    }
  }

  /** A ring without its member at `k`. If that was the first, the last one leads. */
  function Without(r: seq<Addr>, k: nat): seq<Addr>
    requires k < |r| && |r| > 1
  {
    if k > 0 then r[..k] + r[k + 1..] else [r[|r| - 1]] + r[1..|r| - 1]
  }

  /** Where `Without` has taken its member at `j` from, in a ring of `n`. */
  function Source(n: nat, k: nat, j: nat): (i: nat)
    requires k < n && n > 1 && j < n - 1
    ensures i < n && i != k
  {
    if k > 0 then (if j < k then j else j + 1) else if j == 0 then n - 1 else j
  }

  lemma TakenFrom(r: seq<Addr>, k: nat, j: nat)
    requires k < |r| && |r| > 1 && j < |r| - 1
    ensures Without(r, k)[j] == r[Source(|r|, k, j)]
  {
  }

  function To(r: seq<Addr>, k: nat, i: nat): (j: nat)
    requires k < |r| && |r| > 1 && i < |r| && i != k
    ensures j < |r| - 1 && Without(r, k)[j] == r[i]
  {
    if k > 0 then (if i < k then i else i - 1) else if i == |r| - 1 then 0 else i
  }

  lemma RemoveFromRing(m: Chunks, rings: RingMap, x: Addr, s: nat, k: nat)
    requires RingInv(m, rings) && s in rings && k < |rings[s]| && |rings[s]| > 1 && rings[s][k] == x
    ensures x in m && m[x].fd in m && m[x].bk in m
    ensures RingInv(Unchain(m, x) - {x}, rings[s := Without(rings[s], k)])
  {
    var r := rings[s];
    RingMember(m, rings, s, k);
    assert RingOk(m, s, r);
    var m', r' := Unchain(m, x) - {x}, Without(r, k);
    forall j | 0 <= j < |r'| ensures Linked(m', s, r', j) {
      RemovedLink(m, s, r, k, j);
    }
    assert Distinct(r') by {
      forall i, j | 0 <= i < j < |r'| ensures r'[i] != r'[j] {
        TakenFrom(r, k, i);
        TakenFrom(r, k, j);
      }
    }
    OtherRings(m, m', rings, s);
    forall a | a in m' ensures InRing(m', rings[s := r'], a) {
      assert InRing(m, rings, a);
      if m[a].size == s {
        var i :| 0 <= i < |r| && r[i] == a;
        assert r'[To(r, k, i)] == a;
      }
    }
  }

  /** The neighbours after the removal are the old ones, or those of the removed member. */
  lemma Neighbours(n: nat, k: nat, j: nat)
    requires k < n && n > 1 && j < n - 1
    ensures var i := Source(n, k, j);
            && Source(n, k, After(j, n - 1)) == (if After(i, n) == k then After(k, n) else After(i, n))
            && Source(n, k, Before(j, n - 1)) == (if Before(i, n) == k then Before(k, n) else Before(i, n))
  {
  }

  lemma RemovedLink(m: Chunks, s: nat, r: seq<Addr>, k: nat, j: nat)
    requires RingOk(m, s, r) && |r| > 1 && k < |r| && j < |r| - 1
    ensures r[k] in m && m[r[k]].fd in m && m[r[k]].bk in m
    ensures Linked(Unchain(m, r[k]) - {r[k]}, s, Without(r, k), j)
  {
    var n, r' := |r|, Without(r, k);
    var i := Source(n, k, j);
    TakenFrom(r, k, j);
    TakenFrom(r, k, After(j, n - 1));
    TakenFrom(r, k, Before(j, n - 1));
    Neighbours(n, k, j);
    assert Linked(m, s, r, k) && Linked(m, s, r, i);
    assert Linked(m, s, r, After(k, n)) && Linked(m, s, r, Before(k, n));
    assert r'[j] == r[i];
    assert r'[After(j, n - 1)] == if After(i, n) == k then r[After(k, n)] else r[After(i, n)];
    assert r'[Before(j, n - 1)] == if Before(i, n) == k then r[Before(k, n)] else r[Before(i, n)];
    hide Without, Source;
    SetLinks(m, s, r, k, i);
  }

  /** What passing over the member at `k` does to another one. */
  lemma SetLinks(m: Chunks, s: nat, r: seq<Addr>, k: nat, i: nat)
    requires RingOk(m, s, r) && |r| > 1 && k < |r| && i < |r| && i != k
    ensures r[k] in m && m[r[k]].fd in m && m[r[k]].bk in m && r[i] in m && r[i] != r[k]
    ensures r[i] in Unchain(m, r[k])
    ensures var c := Unchain(m, r[k])[r[i]];
            && c.size == s
            && c.fd == (if After(i, |r|) == k then r[After(k, |r|)] else r[After(i, |r|)])
            && c.bk == (if Before(i, |r|) == k then r[Before(k, |r|)] else r[Before(i, |r|)])
  {
    var n := |r|;
    assert Linked(m, s, r, k) && Linked(m, s, r, i);
    assert Linked(m, s, r, After(k, n)) && Linked(m, s, r, Before(k, n));
    assert i == After(k, n) <==> r[i] == r[After(k, n)];
    assert i == Before(k, n) <==> r[i] == r[Before(k, n)];
    Opposite(n, i, k);
  }

  lemma Opposite(n: nat, i: nat, k: nat)
    requires i < n && k < n
    ensures After(i, n) == k <==> i == Before(k, n)
    ensures Before(i, n) == k <==> i == After(k, n)
  {
  }

  lemma DropRing(m: Chunks, rings: RingMap, x: Addr)
    requires RingInv(m, rings) && x in m && m[x].size in rings && rings[m[x].size] == [x]
    ensures RingInv(m - {x}, rings - {m[x].size})
  {
    var m', rings' := m - {x}, rings - {m[x].size};
    OtherRings(m, m', rings, m[x].size);
    forall a | a in m' ensures InRing(m', rings', a) {
      assert InRing(m, rings, a);
    }
  }
}

/**
 The small bins: for each of the 32 sizes a ring of free chunks that goes through the
 sentinel of its bin. The links of the sentinel mean something only while the bin is marked.
 */
module SmallBins {
  import opened MallocUnits
  import opened BitMaps

  const NSMALLBINS: nat := 32
  const SMALLBIN_SHIFT: nat := 3

  /** The sentinel of bin `i`, or a chunk. */
  datatype Ref = Bin(i: nat) | At(a: Addr)

  datatype Link = Link(fd: Ref, bk: Ref)

  type Links = map<Ref, Link>

  /** The chunks of each bin, in the order in which `fd` leads from the sentinel. */
  type Orders = seq<seq<Addr>>

  function SmallIndex(s: nat): nat {
    s / 8
  }

  function IndexToSize(i: nat): nat {
    8 * i
  }

  /** Place `k` of the ring of bin `i`: the sentinel, the chunks, and the sentinel again. */
  function Stop(i: nat, r: seq<Addr>, k: nat): Ref {
    if 0 < k <= |r| then At(r[k - 1]) else Bin(i)
  }

  predicate Linked(links: Links, i: nat, r: seq<Addr>, k: nat) {
    && Stop(i, r, k) in links && Stop(i, r, k + 1) in links
    && links[Stop(i, r, k)].fd == Stop(i, r, k + 1)
    && links[Stop(i, r, k + 1)].bk == Stop(i, r, k)
  }

  ghost predicate RingOk(links: Links, i: nat, r: seq<Addr>) {
    && (forall k :: 0 <= k <= |r| ==> Linked(links, i, r, k))
    && (forall k, l :: 0 <= k < l < |r| ==> r[k] != r[l])
  }

  ghost predicate BinOk(links: Links, marked: set<nat>, small: map<Addr, nat>, order: Orders, i: nat)
    requires i < |order|
  {
    && Bin(i) in links
    && (i in marked <==> order[i] != [])
    && (order[i] != [] ==> RingOk(links, i, order[i]))
    && (forall k :: 0 <= k < |order[i]| ==> order[i][k] in small && small[order[i][k]] == IndexToSize(i))
  }

  /** `small` holds just the chunks of the rings, with the sizes of their bins. */
  ghost predicate Held(small: map<Addr, nat>, order: Orders) {
    forall a :: a in small ==>
      var i := SmallIndex(small[a]); i < |order| && small[a] == IndexToSize(i) && a in order[i]
  }

  ghost predicate SmallOk(links: Links, smallmap: BinMap, small: map<Addr, nat>, order: Orders) {
    && |order| == NSMALLBINS
    && (forall i :: 0 <= i < NSMALLBINS ==> BinOk(links, Marked(smallmap), small, order, i))
    && Held(small, order)
  }

  /** `init_bins` */
  function EmptyLinks(): Links {
    map i: nat | i < NSMALLBINS :: Bin(i) := Link(Bin(i), Bin(i))
  }

  lemma NoneHeld(links: Links)
    requires forall i: nat :: i < NSMALLBINS ==> Bin(i) in links
    ensures SmallOk(links, Zero(), map[], seq(NSMALLBINS, _ => []))
  {
    MarkedZero(Zero());
  }

  // ----- inserting -----

  /** `a` is linked in behind the sentinel of bin `i`, in front of `f`. */
  function LinkIn(links: Links, i: nat, f: Ref, a: Addr): Links
    requires Bin(i) in links && f in links
  {
    var l1 := links[Bin(i) := links[Bin(i)].(fd := At(a))];
    l1[f := l1[f].(bk := At(a))][At(a) := Link(f, Bin(i))]
  }

  /** The first chunk, or the sentinel of an empty bin. */
  function Front(links: Links, marked: set<nat>, i: nat): Ref
    requires Bin(i) in links
  {
    if i in marked then links[Bin(i)].fd else Bin(i)
  }

  lemma InsertRing(links: Links, i: nat, r: seq<Addr>, a: Addr)
    requires Bin(i) in links && a !in r && (r != [] ==> RingOk(links, i, r))
    ensures Stop(i, r, 1) in links
    ensures RingOk(LinkIn(links, i, Stop(i, r, 1), a), i, [a] + r)
  {
    assert r != [] ==> Linked(links, i, r, 0);
    var l', r' := LinkIn(links, i, Stop(i, r, 1), a), [a] + r;
    forall k | 0 <= k <= |r'| ensures Linked(l', i, r', k) {
      if k >= 2 {
        assert Linked(links, i, r, k - 1);
      }
    }
  }

  lemma OtherRing(links: Links, links': Links, i: nat, r: seq<Addr>)
    requires RingOk(links, i, r)
    requires forall k: nat :: k <= |r| ==>
             Stop(i, r, k) in links' && Stop(i, r, k) in links && links'[Stop(i, r, k)] == links[Stop(i, r, k)]
    ensures RingOk(links', i, r)
  {
    forall k | 0 <= k <= |r| ensures Linked(links', i, r, k) {
      assert Linked(links, i, r, k);
      assert k == |r| ==> Stop(i, r, k + 1) == Stop(i, r, 0);
    }
  }

  lemma InsertOk(links: Links, smallmap: BinMap, small: map<Addr, nat>, order: Orders, a: Addr, i: nat)
    requires SmallOk(links, smallmap, small, order) && a !in small && i < NSMALLBINS
    ensures |order| == NSMALLBINS && Bin(i) in links && Front(links, Marked(smallmap), i) in links
    ensures SmallOk(LinkIn(links, i, Front(links, Marked(smallmap), i), a), Mark(smallmap, i),
                    small[a := IndexToSize(i)], order[i := [a] + order[i]])
  {
    assert BinOk(links, Marked(smallmap), small, order, i);
    var r, f := order[i], Front(links, Marked(smallmap), i);
    assert a !in r;
    InsertRing(links, i, r, a);
    assert r != [] ==> Linked(links, i, r, 0);
    assert f == Stop(i, r, 1);
    MarkOne(smallmap, i);
    Homes(links, Marked(smallmap), small, order);
    var links', small', order' := LinkIn(links, i, f, a), small[a := IndexToSize(i)], order[i := [a] + r];
    forall j | 0 <= j < NSMALLBINS ensures BinOk(links', Marked(Mark(smallmap, i)), small', order', j) {
      assert BinOk(links, Marked(smallmap), small, order, j);
      if j != i {
        OtherBin(links, links', small, order, i, f, a, j);
      }
    }
    forall b | b in small'
      ensures var k := SmallIndex(small'[b]); k < |order'| && small'[b] == IndexToSize(k) && b in order'[k]
    {
      assert b != a ==> b in small;
    }
  }

  lemma Homes(links: Links, marked: set<nat>, small: map<Addr, nat>, order: Orders)
    requires |order| == NSMALLBINS && forall i :: 0 <= i < NSMALLBINS ==> BinOk(links, marked, small, order, i)
    ensures forall i, a :: 0 <= i < NSMALLBINS && a in order[i] ==> a in small && small[a] == IndexToSize(i)
  {
    forall i, a | 0 <= i < NSMALLBINS && a in order[i] ensures a in small && small[a] == IndexToSize(i) {
      assert BinOk(links, marked, small, order, i);
    }
  }

  lemma OtherBin(links: Links, links': Links, small: map<Addr, nat>, order: Orders, i: nat, f: Ref, a: Addr, j: nat)
    requires |order| == NSMALLBINS && i < NSMALLBINS && j < NSMALLBINS && i != j && a !in small
    requires Bin(i) in links && f in links && links' == LinkIn(links, i, f, a) && f == Stop(i, order[i], 1)
    requires forall k, c :: 0 <= k < NSMALLBINS && c in order[k] ==> c in small && small[c] == IndexToSize(k)
    requires order[j] != [] ==> RingOk(links, j, order[j])
    ensures order[j] != [] ==> RingOk(links', j, order[j])
  {
    if order[j] != [] {
      forall k: nat | k <= |order[j]|
        ensures Stop(j, order[j], k) in links' && Stop(j, order[j], k) in links
        ensures links'[Stop(j, order[j], k)] == links[Stop(j, order[j], k)]
      {
        assert Linked(links, j, order[j], k);
        var s := Stop(j, order[j], k);
        if s.At? {
          assert s.a == order[j][k - 1] && s.a in order[j];
          assert small[s.a] == IndexToSize(j);
        }
        if f.At? {
          assert f.a == order[i][0] && f.a in order[i];
          assert small[f.a] == IndexToSize(i);
        }
        assert s != Bin(i);
        assert s != At(a);
        assert s != f;
      }
      OtherRing(links, links', j, order[j]);
    }
  }

  // ----- unlinking -----

  function Without(r: seq<Addr>, k: nat): seq<Addr>
    requires k < |r|
  {
    r[..k] + r[k + 1..]
  }

  /** The refs `b` and `f` are linked to each other. */
  function PassOver(links: Links, b: Ref, f: Ref): Links
    requires b in links && f in links
  {
    var l1 := links[f := links[f].(bk := b)];
    l1[b := l1[b].(fd := f)]
  }

  /** What unlinking the chunk `a` of bin `i` leaves: with no other chunk in the bin only its
      mark goes, and the sentinel keeps pointing to `a`. */
  function LinkedOut(links: Links, a: Addr): Links
    requires At(a) in links && links[At(a)].fd in links && links[At(a)].bk in links
  {
    var f, b := links[At(a)].fd, links[At(a)].bk;
    (if b == f then links else PassOver(links, b, f)) - {At(a)}
  }

  lemma UnlinkRing(links: Links, i: nat, r: seq<Addr>, k: nat)
    requires RingOk(links, i, r) && k < |r|
    ensures At(r[k]) in links && links[At(r[k])].fd == Stop(i, r, k + 2) && links[At(r[k])].bk == Stop(i, r, k)
    ensures Stop(i, r, k + 2) in links && Stop(i, r, k) in links
    ensures Stop(i, r, k) == Stop(i, r, k + 2) <==> |r| == 1
    ensures |r| > 1 ==> RingOk(LinkedOut(links, r[k]), i, Without(r, k))
  {
    assert Linked(links, i, r, k) && Linked(links, i, r, k + 1);
    if |r| > 1 {
      var l', r' := LinkedOut(links, r[k]), Without(r, k);
      forall j | 0 <= j <= |r'| ensures Linked(l', i, r', j) {
        var o := if j < k then j else j + 1;
        assert Linked(links, i, r, o);
        assert Stop(i, r', j) == Stop(i, r, if j <= k then j else j + 1);
        assert Stop(i, r', j + 1) == Stop(i, r, if j < k then j + 1 else j + 2);
      }
    }
  }

  /** Where a chunk is. */
  lemma PlaceOf(links: Links, smallmap: BinMap, small: map<Addr, nat>, order: Orders, a: Addr) returns (k: nat)
    requires SmallOk(links, smallmap, small, order) && a in small
    ensures var i := SmallIndex(small[a]);
            && i < NSMALLBINS == |order| && small[a] == IndexToSize(i) && i in Marked(smallmap)
            && k < |order[i]| && order[i][k] == a && RingOk(links, i, order[i])
  {
    var i := SmallIndex(small[a]);
    assert BinOk(links, Marked(smallmap), small, order, i);
    k :| 0 <= k < |order[i]| && order[i][k] == a;
  }

  /** Whether the mark of the bin goes when `a` leaves it. */
  function MapWithout(links: Links, smallmap: BinMap, a: Addr, i: nat): BinMap
    requires At(a) in links
  {
    if links[At(a)].bk == links[At(a)].fd then Clear(smallmap, i) else smallmap
  }

  lemma UnlinkOk(links: Links, smallmap: BinMap, small: map<Addr, nat>, order: Orders, a: Addr, k: nat)
    requires SmallOk(links, smallmap, small, order) && a in small
    requires var i := SmallIndex(small[a]); i < |order| && k < |order[i]| && order[i][k] == a
    ensures At(a) in links && links[At(a)].fd in links && links[At(a)].bk in links
    ensures var i := SmallIndex(small[a]);
            SmallOk(LinkedOut(links, a), MapWithout(links, smallmap, a, i), small - {a},
                order[i := Without(order[i], k)])
  {
    hide RingOk, Linked;
    var i := SmallIndex(small[a]);
    assert BinOk(links, Marked(smallmap), small, order, i);
    var r := order[i];
    UnlinkRing(links, i, r, k);
    ClearOne(smallmap, i);
    Homes(links, Marked(smallmap), small, order);
    var links', small', order' := LinkedOut(links, a), small - {a}, order[i := Without(r, k)];
    var map' := MapWithout(links, smallmap, a, i);
    Apart(links, i, r, k);
    forall j | 0 <= j < NSMALLBINS ensures BinOk(links', Marked(map'), small', order', j) {
      assert BinOk(links, Marked(smallmap), small, order, j);
      if j == i {
        forall l | 0 <= l < |order'[i]| ensures order'[i][l] in small' {
          assert order'[i][l] == r[if l < k then l else l + 1];
        }
      } else {
        RingBeside(links, small, order, i, k, j);
      }
    }
    StillHeld(small, order, i, k);
  }

  lemma Apart(links: Links, i: nat, r: seq<Addr>, k: nat)
    requires RingOk(links, i, r) && k < |r|
    ensures forall l :: 0 <= l < |r| && l != k ==> r[l] != r[k]
  {
  }

  lemma StillHeld(small: map<Addr, nat>, order: Orders, i: nat, k: nat)
    requires Held(small, order) && i < |order| && k < |order[i]|
    ensures Held(small - {order[i][k]}, order[i := Without(order[i], k)])
  {
    var a, order' := order[i][k], order[i := Without(order[i], k)];
    forall b | b in small && b != a
      ensures var j := SmallIndex(small[b]); j < |order'| && small[b] == IndexToSize(j) && b in order'[j]
    {
      var j := SmallIndex(small[b]);
      if j == i {
        var l :| 0 <= l < |order[i]| && order[i][l] == b;
        assert order'[i][if l < k then l else l - 1] == b;
      }
    }
  }

  lemma RingBeside(links: Links, small: map<Addr, nat>, order: Orders, i: nat, k: nat, j: nat)
    requires |order| == NSMALLBINS && i < NSMALLBINS && j < NSMALLBINS && i != j && k < |order[i]|
    requires RingOk(links, i, order[i]) && (order[j] != [] ==> RingOk(links, j, order[j])) && Bin(j) in links
    requires forall l, c :: 0 <= l < NSMALLBINS && c in order[l] ==> c in small && small[c] == IndexToSize(l)
    ensures At(order[i][k]) in links && links[At(order[i][k])].fd in links && links[At(order[i][k])].bk in links
    ensures Bin(j) in LinkedOut(links, order[i][k])
    ensures order[j] != [] ==> RingOk(LinkedOut(links, order[i][k]), j, order[j])
    ensures forall l :: 0 <= l < |order[j]| ==> order[j][l] != order[i][k]
  {
    var a := order[i][k];
    UnlinkRing(links, i, order[i], k);
    var f, b := links[At(a)].fd, links[At(a)].bk;
    assert a in order[i] && small[a] == IndexToSize(i);
    if order[j] != [] {
      forall l: nat | l <= |order[j]|
        ensures var s := Stop(j, order[j], l);
                s in LinkedOut(links, a) && s in links && LinkedOut(links, a)[s] == links[s]
      {
        assert Linked(links, j, order[j], l);
        StopsDiffer(small, order, i, k, j, l);
        StopsDiffer(small, order, i, k + 2, j, l);
        StopsDiffer(small, order, i, k + 1, j, l);
      }
      OtherRing(links, LinkedOut(links, a), j, order[j]);
    }
    forall l | 0 <= l < |order[j]| ensures order[j][l] != a {
      assert order[j][l] in order[j];
    }
  }

  lemma StopsDiffer(small: map<Addr, nat>, order: Orders, i: nat, k: nat, j: nat, l: nat)
    requires |order| == NSMALLBINS && i < NSMALLBINS && j < NSMALLBINS && i != j
    requires forall n, c :: 0 <= n < NSMALLBINS && c in order[n] ==> c in small && small[c] == IndexToSize(n)
    ensures Stop(i, order[i], k) != Stop(j, order[j], l)
  {
    if Stop(i, order[i], k).At? && Stop(j, order[j], l).At? {
      assert order[i][k - 1] in order[i] && order[j][l - 1] in order[j];
      assert small[order[i][k - 1]] == IndexToSize(i) && small[order[j][l - 1]] == IndexToSize(j);
    }
  }

  // ----- finding a bin -----

  /** The chunks of a marked bin, of which `fd` of the sentinel is one. */
  lemma FirstOf(links: Links, smallmap: BinMap, small: map<Addr, nat>, order: Orders, i: nat)
    requires SmallOk(links, smallmap, small, order) && i in Marked(smallmap)
    ensures i < NSMALLBINS && order[i] != [] && Bin(i) in links && links[Bin(i)].fd == At(order[i][0])
    ensures order[i][0] in small && small[order[i][0]] == IndexToSize(i)
  {
    assert BinOk(links, Marked(smallmap), small, order, i);
    assert Linked(links, i, order[i], 0);
  }
}

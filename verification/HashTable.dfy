/**
 The chained hash table. The entries are a map from the addresses of nodes to their fields;
 an address of 0 is the null pointer.
 */
module HashTables {
  import opened MallocUnits

  datatype Entry<K, V> = Entry(first: K, second: V, next: Addr)

  type Nodes<K, V> = map<Addr, Entry<K, V>>

  /** The bucket of a key. */
  function BucketOf<K>(hash: K -> nat, key: K, buckets: nat): (b: nat)
    requires buckets > 0
    ensures b < buckets
  {
    hash(key) % buckets
  }

  /** The chain `c` from place `k` on, as a pointer. */
  function Link(c: seq<Addr>, k: nat): Addr {
    if k < |c| then c[k] else 0
  }

  predicate NoRepeats(c: seq<Addr>) {
    forall j, k :: 0 <= j < k < |c| ==> c[j] != c[k]
  }

  predicate LinkOk<K, V>(m: Nodes<K, V>, c: seq<Addr>, k: nat)
    requires k < |c|
  {
    c[k] != 0 && c[k] in m && m[c[k]].next == Link(c, k + 1)
  }

  /** The chain of a bucket: its nodes, linked in this order, with keys that belong there. */
  ghost predicate ChainOk<K, V>(m: Nodes<K, V>, hash: K -> nat, head: Addr, c: seq<Addr>, b: nat, buckets: nat)
    requires buckets > 0
  {
    && head == Link(c, 0) && NoRepeats(c)
    && (forall k :: 0 <= k < |c| ==> LinkOk(m, c, k))
    && forall a :: a in c && a in m ==> BucketOf(hash, m[a].first, buckets) == b
  }

  /** Every entry is in the chain of its bucket. */
  ghost predicate TableOk<K(!new), V>(m: Nodes<K, V>, hash: K -> nat, table: seq<Addr>, chains: seq<seq<Addr>>) {
    && |table| == |chains| > 0
    && (forall b :: 0 <= b < |table| ==> ChainOk(m, hash, table[b], chains[b], b, |table|))
    && (forall a :: a in m ==> a in chains[BucketOf(hash, m[a].first, |table|)])
  }

  /** `index` says which node holds a key; the entries are those of the map `contents`. */
  ghost predicate Represents<K(!new), V>(m: Nodes<K, V>, index: map<K, Addr>, contents: map<K, V>) {
    && (forall a :: a in m ==> m[a].first in index && index[m[a].first] == a)
    && (forall key :: key in index ==> index[key] in m && m[index[key]].first == key)
    && contents.Keys == index.Keys && (forall key :: key in index ==> contents[key] == m[index[key]].second)
    && |m| == |index| == |contents|
  }

  /** How many entries make the table grow. */
  function Threshold(buckets: nat, factor: real): nat
    requires factor >= 0.0
  {
    (buckets as real * factor).Floor
  }

  // ----- the chains -----

  /** The nodes that the chain of another bucket links stay as they are. */
  lemma ChainFrame<K, V>(m: Nodes<K, V>, m': Nodes<K, V>, hash: K -> nat, head: Addr, c: seq<Addr>, b: nat,
      buckets: nat)
    requires buckets > 0 && ChainOk(m, hash, head, c, b, buckets)
    requires forall a :: a in c && a in m ==> a in m' && m'[a].first == m[a].first && m'[a].next == m[a].next
    ensures ChainOk(m', hash, head, c, b, buckets)
  {
    forall k | 0 <= k < |c| ensures LinkOk(m', c, k) {
      assert LinkOk(m, c, k);
    }
    forall a | a in c && a in m' ensures BucketOf(hash, m'[a].first, buckets) == b {
      var k :| 0 <= k < |c| && c[k] == a;
      assert LinkOk(m, c, k);
    }
  }

  lemma LinkAt<K, V>(m: Nodes<K, V>, hash: K -> nat, head: Addr, c: seq<Addr>, b: nat, buckets: nat, k: nat)
    requires buckets > 0 && ChainOk(m, hash, head, c, b, buckets) && k < |c|
    ensures LinkOk(m, c, k) && BucketOf(hash, m[c[k]].first, buckets) == b
  {
    assert LinkOk(m, c, k);
  }

  lemma HeadAt<K, V>(m: Nodes<K, V>, hash: K -> nat, head: Addr, c: seq<Addr>, b: nat, buckets: nat)
    requires buckets > 0 && ChainOk(m, hash, head, c, b, buckets)
    ensures head == Link(c, 0) && (head == 0 <==> c == []) && (head != 0 ==> head in m)
  {
    if c != [] {
      assert LinkOk(m, c, 0);
    }
  }

  /** No node is in the chains of two buckets. */
  lemma OneChain<K, V>(m: Nodes<K, V>, hash: K -> nat, h1: Addr, c1: seq<Addr>, b1: nat, c2: seq<Addr>, h2: Addr,
      b2: nat, buckets: nat, a: Addr)
    requires buckets > 0 && ChainOk(m, hash, h1, c1, b1, buckets) && ChainOk(m, hash, h2, c2, b2, buckets)
    requires b1 != b2 && a in c1
    ensures a !in c2
  {
    var k :| 0 <= k < |c1| && c1[k] == a;
    LinkAt(m, hash, h1, c1, b1, buckets, k);
  }

  /** The last node of a chain, or null. */
  function LastOf(c: seq<Addr>, k: nat): Addr
    requires k <= |c|
  {
    if k == 0 then 0 else c[k - 1]
  }

  /** A new node `x` at the end of its chain. */
  function Appended<K, V>(m: Nodes<K, V>, last: Addr, x: Addr, key: K, val: V): Nodes<K, V> {
    var m1 := m[x := Entry(key, val, 0)];
    if last == 0 || last !in m then m1 else m1[last := m1[last].(next := x)]
  }

  lemma AppendChain<K, V>(m: Nodes<K, V>, hash: K -> nat, head: Addr, c: seq<Addr>, buckets: nat, x: Addr, key: K,
      val: V)
    requires buckets > 0 && ChainOk(m, hash, head, c, BucketOf(hash, key, buckets), buckets) && x !in m && x != 0
    ensures ChainOk(Appended(m, LastOf(c, |c|), x, key, val), hash, if c == [] then x else head, c + [x],
            BucketOf(hash, key, buckets), buckets)
  {
    var m', c' := Appended(m, LastOf(c, |c|), x, key, val), c + [x];
    forall k | 0 <= k < |c| ensures c[k] != x && c[k] in m {
      assert LinkOk(m, c, k);
    }
    forall k | 0 <= k < |c'| ensures LinkOk(m', c', k) {
      if k < |c| {
        assert LinkOk(m, c, k);
      }
    }
  }

  lemma AppendTable<K(!new), V>(m: Nodes<K, V>, hash: K -> nat, table: seq<Addr>, chains: seq<seq<Addr>>, x: Addr,
      key: K, val: V)
    requires TableOk(m, hash, table, chains) && x !in m && x != 0
    ensures var i := BucketOf(hash, key, |table|);
            var c := chains[i];
            TableOk(Appended(m, LastOf(c, |c|), x, key, val), hash, table[i := if c == [] then x else table[i]],
                chains[i := c + [x]])
  {
    hide ChainOk, BucketOf;
    var i := BucketOf(hash, key, |table|);
    var c := chains[i];
    var last := LastOf(c, |c|);
    var m', t', ch' := Appended(m, last, x, key, val), table[i := if c == [] then x else table[i]],
        chains[i := c + [x]];
    assert ChainOk(m, hash, table[i], c, i, |table|);
    if c != [] {
      LinkAt(m, hash, table[i], c, i, |table|, |c| - 1);
    }
    forall b | 0 <= b < |t'| ensures ChainOk(m', hash, t'[b], ch'[b], b, |t'|) {
      if b == i {
        AppendChain(m, hash, table[i], c, |table|, x, key, val);
      } else {
        assert ChainOk(m, hash, table[b], chains[b], b, |table|);
        if c != [] {
          OneChain(m, hash, table[i], c, i, chains[b], table[b], b, |table|, last);
        }
        ChainFrame(m, m', hash, table[b], chains[b], b, |table|);
      }
    }
    forall a | a in m' ensures a in ch'[BucketOf(hash, m'[a].first, |t'|)] {
      if a == x {
        assert (c + [x])[|c|] == x;
      } else {
        assert a in chains[BucketOf(hash, m[a].first, |table|)];
      }
    }
  }

  function DropAt(c: seq<Addr>, k: nat): seq<Addr>
    requires k < |c|
  {
    c[..k] + c[k + 1..]
  }

  /** The node at place `k` of its chain is taken out. */
  function Removed<K, V>(m: Nodes<K, V>, last: Addr, x: Addr): Nodes<K, V>
    requires x in m
  {
    var m1 := if last == 0 || last !in m then m else m[last := m[last].(next := m[x].next)];
    m1 - {x}
  }

  lemma RemoveChain<K, V>(m: Nodes<K, V>, hash: K -> nat, head: Addr, c: seq<Addr>, b: nat, buckets: nat, k: nat)
    requires buckets > 0 && ChainOk(m, hash, head, c, b, buckets) && k < |c|
    ensures c[k] in m
    ensures ChainOk(Removed(m, LastOf(c, k), c[k]), hash, if k == 0 then m[c[k]].next else head, DropAt(c, k), b,
            buckets)
  {
    assert LinkOk(m, c, k);
    var m', c' := Removed(m, LastOf(c, k), c[k]), DropAt(c, k);
    forall j | 0 <= j < |c'| ensures LinkOk(m', c', j) {
      assert LinkOk(m, c, if j < k then j else j + 1);
    }
    forall a | a in c' && a in m' ensures BucketOf(hash, m'[a].first, buckets) == b {
      var j :| 0 <= j < |c'| && c'[j] == a;
      assert c[if j < k then j else j + 1] == a;
    }
  }

  lemma RemoveTable<K(!new), V>(m: Nodes<K, V>, hash: K -> nat, table: seq<Addr>, chains: seq<seq<Addr>>, i: nat,
      k: nat)
    requires TableOk(m, hash, table, chains) && i < |table| && k < |chains[i]|
    ensures chains[i][k] in m
    ensures var c := chains[i];
            TableOk(Removed(m, LastOf(c, k), c[k]), hash, table[i := if k == 0 then m[c[k]].next else table[i]],
                chains[i := DropAt(c, k)])
  {
    hide ChainOk, BucketOf;
    var c := chains[i];
    assert ChainOk(m, hash, table[i], c, i, |table|);
    LinkAt(m, hash, table[i], c, i, |table|, k);
    var x, last := c[k], LastOf(c, k);
    var m', t', ch' := Removed(m, last, x), table[i := if k == 0 then m[x].next else table[i]],
        chains[i := DropAt(c, k)];
    if k > 0 {
      LinkAt(m, hash, table[i], c, i, |table|, k - 1);
    }
    forall b | 0 <= b < |t'| ensures ChainOk(m', hash, t'[b], ch'[b], b, |t'|) {
      if b == i {
        RemoveChain(m, hash, table[i], c, i, |table|, k);
      } else {
        assert ChainOk(m, hash, table[b], chains[b], b, |table|);
        OneChain(m, hash, table[i], c, i, chains[b], table[b], b, |table|, x);
        if k > 0 {
          OneChain(m, hash, table[i], c, i, chains[b], table[b], b, |table|, last);
        }
        ChainFrame(m, m', hash, table[b], chains[b], b, |table|);
      }
    }
    forall a | a in m' ensures a in ch'[BucketOf(hash, m'[a].first, |t'|)] {
      assert a in chains[BucketOf(hash, m[a].first, |table|)];
      if BucketOf(hash, m[a].first, |table|) == i {
        var j :| 0 <= j < |c| && c[j] == a;
        assert ch'[i][if j < k then j else j - 1] == a;
      }
    }
  }

  // ----- growing -----

  /** The nodes already moved to the new table: each new chain holds those of its bucket, and
      the others still have their links. */
  ghost predicate Moved<K(!new), V>(m0: Nodes<K, V>, m: Nodes<K, V>, hash: K -> nat, table: seq<Addr>,
      chains: seq<seq<Addr>>, done: set<Addr>) {
    && |table| == |chains| > 0 && m.Keys == m0.Keys && done <= m.Keys
    && (forall b :: 0 <= b < |table| ==> ChainOk(m, hash, table[b], chains[b], b, |table|))
    && (forall b, a :: 0 <= b < |table| && a in chains[b] ==> a in done)
    && (forall a :: a in done ==> a in chains[BucketOf(hash, m[a].first, |table|)])
    && (forall a :: a in m ==>
      m[a].first == m0[a].first && m[a].second == m0[a].second && (a !in done ==> m[a].next == m0[a].next))
  }

  /** The node `x` is put at the head of its new chain. */
  lemma MoveOne<K(!new), V>(m0: Nodes<K, V>, m: Nodes<K, V>, hash: K -> nat, table: seq<Addr>, chains: seq<seq<Addr>>,
      done: set<Addr>, x: Addr)
    requires Moved(m0, m, hash, table, chains, done) && x in m && x !in done && x != 0
    ensures var i := BucketOf(hash, m[x].first, |table|);
            Moved(m0, m[x := m[x].(next := table[i])], hash, table[i := x], chains[i := [x] + chains[i]], done + {x})
  {
    hide ChainOk, BucketOf;
    var i := BucketOf(hash, m[x].first, |table|);
    var m', t', ch' := m[x := m[x].(next := table[i])], table[i := x], chains[i := [x] + chains[i]];
    forall b | 0 <= b < |t'| ensures ChainOk(m', hash, t'[b], ch'[b], b, |t'|) {
      assert ChainOk(m, hash, table[b], chains[b], b, |table|);
      ChainFrame(m, m', hash, table[b], chains[b], b, |table|);
      if b == i {
        ChainCons(m', hash, table[i], chains[i], i, |table|, x);
      }
    }
    forall a | a in done + {x} ensures a in ch'[BucketOf(hash, m'[a].first, |t'|)] {
      if a == x {
        assert ch'[i][0] == x;
      } else {
        assert a in chains[BucketOf(hash, m[a].first, |table|)];
      }
    }
  }

  lemma ChainCons<K, V>(m: Nodes<K, V>, hash: K -> nat, head: Addr, c: seq<Addr>, b: nat, buckets: nat, x: Addr)
    requires buckets > 0 && ChainOk(m, hash, head, c, b, buckets) && x !in c && x != 0 && x in m
    requires m[x].next == head && BucketOf(hash, m[x].first, buckets) == b
    ensures ChainOk(m, hash, x, [x] + c, b, buckets)
  {
    var c' := [x] + c;
    forall k | 0 <= k < |c'| ensures LinkOk(m, c', k) {
      if k > 0 {
        assert LinkOk(m, c, k - 1);
      }
    }
  }

  /** When all nodes are moved, the new table is well-formed and holds the same entries. */
  lemma AllMoved<K(!new), V(!new)>(m0: Nodes<K, V>, m: Nodes<K, V>, hash: K -> nat, table: seq<Addr>,
      chains: seq<seq<Addr>>, done: set<Addr>, index: map<K, Addr>, contents: map<K, V>)
    requires Moved(m0, m, hash, table, chains, done) && done == m0.Keys && Represents(m0, index, contents)
    ensures TableOk(m, hash, table, chains) && Represents(m, index, contents)
  {
    hide ChainOk, BucketOf;
    assert |m| == |m.Keys| == |m0.Keys| == |m0|;
  }

  // ----- what an operation on one key does to the entries -----

  lemma AppendContents<K(!new), V>(m: Nodes<K, V>, index: map<K, Addr>, contents: map<K, V>, last: Addr, x: Addr,
      key: K, val: V)
    requires Represents(m, index, contents) && x !in m && key !in contents
    ensures Represents(Appended(m, last, x, key, val), index[key := x], contents[key := val])
  {
    var m' := Appended(m, last, x, key, val);
    assert m'.Keys == m[x := Entry(key, val, 0)].Keys;
    assert |m'.Keys| == |m'|;
  }

  lemma RemoveContents<K(!new), V>(m: Nodes<K, V>, index: map<K, Addr>, contents: map<K, V>, last: Addr, x: Addr)
    requires Represents(m, index, contents) && x in m
    ensures Represents(Removed(m, last, x), index - {m[x].first}, contents - {m[x].first})
  {
    var m', key := Removed(m, last, x), m[x].first;
    assert m'.Keys == m.Keys - {x} && (index - {key}).Keys == index.Keys - {key}
        && (contents - {key}).Keys == contents.Keys - {key};
    assert |m'| == |m'.Keys| == |m| - 1;
    assert |index - {key}| == |(index - {key}).Keys| == |index| - 1;
    assert |contents - {key}| == |(contents - {key}).Keys| == |contents| - 1;
  }

  lemma SetContents<K(!new), V>(m: Nodes<K, V>, index: map<K, Addr>, contents: map<K, V>, x: Addr, val: V)
    requires Represents(m, index, contents) && x in m
    ensures Represents(m[x := m[x].(second := val)], index, contents[m[x].first := val])
  {
    var m', contents' := m[x := m[x].(second := val)], contents[m[x].first := val];
    assert m'.Keys == m.Keys && contents'.Keys == contents.Keys;
    assert |m'.Keys| == |m'| && |contents'.Keys| == |contents'|;
  }

  lemma SetTable<K(!new), V>(m: Nodes<K, V>, hash: K -> nat, table: seq<Addr>, chains: seq<seq<Addr>>, x: Addr, val: V)
    requires TableOk(m, hash, table, chains) && x in m
    ensures TableOk(m[x := m[x].(second := val)], hash, table, chains)
  {
    hide ChainOk, BucketOf;
    var m' := m[x := m[x].(second := val)];
    forall b | 0 <= b < |table| ensures ChainOk(m', hash, table[b], chains[b], b, |table|) {
      assert ChainOk(m, hash, table[b], chains[b], b, |table|);
      ChainFrame(m, m', hash, table[b], chains[b], b, |table|);
    }
  }

  lemma FreeAddress<K, V>(m: Nodes<K, V>)
    ensures exists a: Addr :: a !in m && a != 0
  {
    var a := Bound(m.Keys);
    assert a !in m && a != 0;
  }

  /** An address beyond all those of a set. */
  ghost function Bound(s: set<Addr>): (a: Addr)
    ensures a > 0 && forall b :: b in s ==> b < a
    decreases |s|
  {
    if s == {} then 1
    else
      var x :| x in s;
      var rest := Bound(s - {x});
      assert forall b :: b in s ==> b == x || b in s - {x};
      if x < rest then rest else x + 1
  }

  lemma AppendCount<K, V>(m: Nodes<K, V>, last: Addr, x: Addr, key: K, val: V)
    requires x !in m
    ensures |Appended(m, last, x, key, val)| == |m| + 1
  {
    var m' := Appended(m, last, x, key, val);
    assert m'.Keys == m[x := Entry(key, val, 0)].Keys;
    assert |m'.Keys| == |m'|;
  }

  lemma RemoveCount<K, V>(m: Nodes<K, V>, last: Addr, x: Addr)
    requires x in m
    ensures |Removed(m, last, x)| == |m| - 1 && |m| > 0
  {
    var m' := Removed(m, last, x);
    assert m'.Keys == m.Keys - {x};
    assert |m'.Keys| == |m'| && |m.Keys| == |m|;
  }

  lemma SameKeys<K, V>(m: Nodes<K, V>, x: Addr, val: V)
    requires x in m
    ensures |m[x := m[x].(second := val)]| == |m|
  {
    var m' := m[x := m[x].(second := val)];
    assert m'.Keys == m.Keys;
    assert |m'.Keys| == |m'|;
  }

  lemma LastThere<K(!new), V>(m: Nodes<K, V>, hash: K -> nat, table: seq<Addr>, chains: seq<seq<Addr>>, i: nat)
    requires TableOk(m, hash, table, chains) && i < |chains|
    ensures var last := LastOf(chains[i], |chains[i]|); (last == 0 <==> chains[i] == []) && (last != 0 ==> last in m)
  {
    if chains[i] != [] {
      LinkAt(m, hash, table[i], chains[i], i, |table|, |chains[i]| - 1);
    }
  }

  lemma PreviousThere<K(!new), V>(m: Nodes<K, V>, hash: K -> nat, table: seq<Addr>, chains: seq<seq<Addr>>, i: nat,
      k: nat)
    requires TableOk(m, hash, table, chains) && i < |chains| && k < |chains[i]|
    ensures var last := LastOf(chains[i], k);
            (last == 0 <==> k == 0) && (last != 0 ==> last in m) && last != chains[i][k]
  {
    LinkAt(m, hash, table[i], chains[i], i, |table|, k);
    if k > 0 {
      LinkAt(m, hash, table[i], chains[i], i, |table|, k - 1);
    }
  }

  lemma EmptyTable<K(!new), V>(hash: K -> nat, table: seq<Addr>, chains: seq<seq<Addr>>)
    requires |table| == |chains| > 0 && forall b :: 0 <= b < |table| ==> table[b] == 0 && chains[b] == []
    ensures TableOk<K, V>(map[], hash, table, chains) && Represents<K, V>(map[], map[], map[])
  {
  }

  lemma {:induction false} SizeOf(met: seq<Addr>, s: set<Addr>)
    requires NoRepeats(met) && forall a :: a in met <==> a in s
    ensures |met| == |s|
  {
    if met == [] {
      forall a ensures a !in s {
      }
      assert s == {};
    } else {
      var n := |met| - 1;
      assert forall a :: a in met[..n] <==> a in met && a != met[n];
      SizeOf(met[..n], s - {met[n]});
    }
  }

  /** What a copy holds after the first `n` nodes that were met. */
  ghost predicate Copied<K(!new), V>(m: Nodes<K, V>, met: seq<Addr>, n: nat, copy: map<K, V>) {
    && n <= |met| && (forall a :: a in met ==> a in m)
    && (forall j :: 0 <= j < n ==> m[met[j]].first in copy && copy[m[met[j]].first] == m[met[j]].second)
    && (forall key :: key in copy ==> exists j :: 0 <= j < n && m[met[j]].first == key)
    && forall j, l :: 0 <= j < l < |met| ==> m[met[j]].first != m[met[l]].first
  }

  lemma CopyOne<K(!new), V>(m: Nodes<K, V>, met: seq<Addr>, n: nat, copy: map<K, V>)
    requires Copied(m, met, n, copy) && n < |met|
    ensures met[n] in m && Copied(m, met, n + 1, copy[m[met[n]].first := m[met[n]].second])
  {
    var copy' := copy[m[met[n]].first := m[met[n]].second];
    forall key | key in copy' ensures exists j :: 0 <= j < n + 1 && m[met[j]].first == key {
      if key != m[met[n]].first {
        var j :| 0 <= j < n && m[met[j]].first == key;
      }
    }
  }

  lemma CopyStart<K(!new), V>(m: Nodes<K, V>, index: map<K, Addr>, contents: map<K, V>, met: seq<Addr>)
    requires Represents(m, index, contents) && NoRepeats(met) && forall a :: a in met ==> a in m
    ensures Copied(m, met, 0, map[])
  {
  }

  lemma RemoveAll<K(!new), V(!new)>(m: Nodes<K, V>, hash: K -> nat, table: seq<Addr>, chains: seq<seq<Addr>>,
      index: map<K, Addr>, contents: map<K, V>, i: nat, k: nat)
    requires i < |chains| == |table| && k < |chains[i]| && chains[i][k] in m
    requires TableOk(m, hash, table, chains) && Represents(m, index, contents)
    ensures var x, last := chains[i][k], LastOf(chains[i], k);
            && (last != 0 ==> last in m && last != x)
            && TableOk(Removed(m, last, x), hash, table[i := if last == 0 then m[x].next else table[i]],
              chains[i := DropAt(chains[i], k)])
            && Represents(Removed(m, last, x), index - {m[x].first}, contents - {m[x].first})
            && |Removed(m, last, x)| == |m| - 1 && |m| > 0
  {
    hide TableOk, Represents;
    var x, last := chains[i][k], LastOf(chains[i], k);
    PreviousThere(m, hash, table, chains, i, k);
    hide Removed, LastOf, DropAt;
    RemoveTable(m, hash, table, chains, i, k);
    RemoveContents(m, index, contents, last, x);
    RemoveCount(m, last, x);
  }

  /** The nodes of the old chains before place `k` of chain `i`. */
  ghost predicate Visited<K(!new), V>(m0: Nodes<K, V>, hash: K -> nat, chains: seq<seq<Addr>>, i: nat, k: nat,
      done: set<Addr>) {
    && |chains| > 0 && done <= m0.Keys
    && forall a :: a in m0 ==> (a in done <==>
         var b := BucketOf(hash, m0[a].first, |chains|);
             b < i || (b == i && i < |chains| && k <= |chains[i]| && a in chains[i][..k]))
  }

  lemma VisitOne<K(!new), V>(m0: Nodes<K, V>, hash: K -> nat, table: seq<Addr>, chains: seq<seq<Addr>>, i: nat, k: nat,
      done: set<Addr>)
    requires TableOk(m0, hash, table, chains) && i < |chains| && k < |chains[i]|
             && Visited(m0, hash, chains, i, k, done)
    ensures chains[i][k] in m0 && chains[i][k] !in done && chains[i][k] != 0
    ensures m0[chains[i][k]].next == Link(chains[i], k + 1)
    ensures Visited(m0, hash, chains, i, k + 1, done + {chains[i][k]})
  {
    var c := chains[i];
    assert ChainOk(m0, hash, table[i], c, i, |table|);
    LinkAt(m0, hash, table[i], c, i, |table|, k);
    assert c[..k + 1] == c[..k] + [c[k]];
  }

  lemma VisitNext<K(!new), V>(m0: Nodes<K, V>, hash: K -> nat, table: seq<Addr>, chains: seq<seq<Addr>>, i: nat,
      done: set<Addr>)
    requires TableOk(m0, hash, table, chains) && i < |chains| && Visited(m0, hash, chains, i, |chains[i]|, done)
    ensures Visited(m0, hash, chains, i + 1, 0, done)
  {
    hide ChainOk, BucketOf;
    assert chains[i][..|chains[i]|] == chains[i];
    forall a | a in m0 && BucketOf(hash, m0[a].first, |chains|) == i ensures a in done {
      assert a in chains[i];
    }
  }

  lemma VisitedAll<K(!new), V>(m0: Nodes<K, V>, hash: K -> nat, chains: seq<seq<Addr>>, done: set<Addr>)
    requires Visited(m0, hash, chains, |chains|, 0, done)
    ensures done == m0.Keys
  {
    forall a | a in m0 ensures a in done {
      assert BucketOf(hash, m0[a].first, |chains|) < |chains|;
    }
  }

  lemma NotMovedYet<K(!new), V>(m0: Nodes<K, V>, m: Nodes<K, V>, hash: K -> nat, table: seq<Addr>,
      chains: seq<seq<Addr>>, done: set<Addr>, a: Addr)
    requires Moved(m0, m, hash, table, chains, done) && a in m0 && a !in done
    ensures a in m && m[a].first == m0[a].first && m[a].next == m0[a].next && |table| == |chains| > 0
  {
  }

  lemma HeadThere<K(!new), V>(m: Nodes<K, V>, hash: K -> nat, table: seq<Addr>, chains: seq<seq<Addr>>, i: nat)
    requires TableOk(m, hash, table, chains) && i < |chains|
    ensures table[i] == Link(chains[i], 0) && (table[i] == 0 ==> chains[i] == [])
  {
    HeadAt(m, hash, table[i], chains[i], i, |table|);
  }

  lemma OldLength<K(!new), V>(m: Nodes<K, V>, hash: K -> nat, table: seq<Addr>, chains: seq<seq<Addr>>)
    requires TableOk(m, hash, table, chains)
    ensures |table| == |chains| > 0
  {
  }

  lemma SameCount<K(!new), V>(m0: Nodes<K, V>, m: Nodes<K, V>, index: map<K, Addr>, contents: map<K, V>)
    requires Represents(m0, index, contents) && Represents(m, index, contents)
    ensures |m| == |m0|
  {
  }

  lemma NothingMoved<K(!new), V>(m0: Nodes<K, V>, hash: K -> nat, table: seq<Addr>, chains: seq<seq<Addr>>,
      oldChains: seq<seq<Addr>>)
    requires |table| == |chains| > 0 && |oldChains| > 0
             && (forall b :: 0 <= b < |table| ==> table[b] == 0 && chains[b] == [])
    ensures Moved(m0, m0, hash, table, chains, {}) && Visited(m0, hash, oldChains, 0, 0, {})
  {
  }

  class HashTable<K(==, !new), V(!new)> {
    const hash: K -> nat
    const maxFactor: real
    var memory: Nodes<K, V>
    var table: array<Addr>
    var count: nat
    var buckets: nat
    var threshold: nat
    ghost var chains: seq<seq<Addr>>
    ghost var index: map<K, Addr>
    ghost var contents: map<K, V>

    ghost predicate Valid()
      reads this, table
    {
      && TableOk(memory, hash, table[..], chains) && Represents(memory, index, contents)
      && buckets == table.Length && count == |memory| && maxFactor >= 0.0 && threshold == Threshold(buckets, maxFactor)
    }

    constructor (initialBuckets: nat, factor: real, hashing: K -> nat)
      requires initialBuckets > 0 && factor >= 0.0
      ensures Valid() && contents == map[] && fresh(table) && hash == hashing
    {
      hash, maxFactor := hashing, factor;
      memory, table := map[], new Addr[initialBuckets](_ => 0);
      count, buckets, threshold := 0, initialBuckets, Threshold(initialBuckets, factor);
      chains, index, contents := seq(initialBuckets, _ => []), map[], map[];
    }

    lemma BucketAt(b: nat)
      requires Valid() && b < buckets
      ensures |chains| == buckets == table.Length && ChainOk(memory, hash, table[b], chains[b], b, buckets)
    {
    }

    lemma InBucket(a: Addr)
      requires Valid() && a in memory
      ensures buckets > 0 && |chains| == buckets && a in chains[BucketOf(hash, memory[a].first, buckets)]
      ensures memory[a].first in contents && contents[memory[a].first] == memory[a].second
    {
    }

    lemma KeyHeld(key: K)
      requires Valid() && key in contents
      ensures exists a :: a in memory && memory[a].first == key
    {
      assert index[key] in memory;
    }

    /** The loop all operations share: along the chain of `key` until it is found. */
    method Locate(key: K) returns (i: nat, node: Addr, last: Addr, ghost k: nat)
      requires Valid()
      ensures buckets > 0 && |chains| == buckets && i == BucketOf(hash, key, buckets) && k <= |chains[i]|
      ensures node == Link(chains[i], k) && last == LastOf(chains[i], k)
      ensures node == 0 <==> key !in contents
      ensures node == 0 ==> k == |chains[i]|
      ensures node != 0 ==>
              k < |chains[i]| && node in memory && memory[node].first == key && memory[node].second == contents[key]
    {
      hide TableOk, Represents, ChainOk, BucketOf;
      BucketCount();
      i := BucketOf(hash, key, buckets);
      BucketAt(i);
      node, last, k := Walk(key, i);
      if node != 0 {
        InBucket(node);
      } else if key in contents {
        NotThere(key, i);
      }
    }

    method Walk(key: K, i: nat) returns (node: Addr, last: Addr, ghost k: nat)
      requires i < |chains| && buckets > 0 && i < table.Length && ChainOk(memory, hash, table[i], chains[i], i, buckets)
      ensures k <= |chains[i]| && node == Link(chains[i], k) && last == LastOf(chains[i], k)
      ensures forall j :: 0 <= j < k ==> chains[i][j] in memory && memory[chains[i][j]].first != key
      ensures if node == 0 then k == |chains[i]| else k < |chains[i]| && node in memory && memory[node].first == key
    {
      hide ChainOk;
      ghost var c := chains[i];
      HeadAt(memory, hash, table[i], c, i, buckets);
      node, last, k := table[i], 0, 0;
      while node != 0 && memory[node].first != key
        invariant k <= |c| && node == Link(c, k) && last == LastOf(c, k) && (node != 0 ==> k < |c| && node in memory)
        invariant forall j :: 0 <= j < k ==> c[j] in memory && memory[c[j]].first != key
        invariant node == 0 ==> k == |c|
        decreases |c| - k
      {
        LinkAt(memory, hash, table[i], c, i, buckets, k);
        if k + 1 < |c| {
          LinkAt(memory, hash, table[i], c, i, buckets, k + 1);
        }
        last, node, k := node, memory[node].next, k + 1;
      }
    }

    /** A key is in the chain of its bucket. */
    lemma NotThere(key: K, i: nat)
      requires Valid() && key in contents && i == BucketOf(hash, key, buckets)
      ensures i < |chains| && exists j ::
              0 <= j < |chains[i]| && chains[i][j] in memory && memory[chains[i][j]].first == key
    {
      KeyHeld(key);
      var a :| a in memory && memory[a].first == key;
      InBucket(a);
    }

    /** `find`: the node of the key, or null. */
    method Find(key: K) returns (node: Addr)
      requires Valid()
      ensures node == 0 <==> key !in contents
      ensures node != 0 ==> node in memory && memory[node].first == key && memory[node].second == contents[key]
    {
      var _, n, _, _ := Locate(key);
      node := n;
    }

    // ----- growing -----

    /** Doubles the buckets when there are enough entries. Each chain comes out reversed. */
    method Resize()
      requires Valid()
      modifies this`memory, this`table, this`buckets, this`threshold, this`chains
      ensures Valid() && (table == old(table) || fresh(table))
      ensures old(count) < old(threshold) ==> chains == old(chains) && buckets == old(buckets)
      ensures old(count) >= old(threshold) ==> buckets == 2 * old(buckets)
    {
      if count >= threshold {
        Grow();
      }
    }

    method Grow()
      requires Valid()
      modifies this`memory, this`table, this`buckets, this`threshold, this`chains
      ensures Valid() && fresh(table) && buckets == 2 * old(buckets)
    {
      hide BucketOf, TableOk, Represents, Moved, Visited, Threshold;
      BucketCount();
      ghost var m0, t0, ch0 := memory, table[..], chains;
      var oldTable := table;
      buckets := 2 * buckets;
      threshold := Threshold(buckets, maxFactor);
      table := new Addr[buckets](_ => 0);
      chains := seq(buckets, _ => []);
      NothingMoved(m0, hash, table[..], chains, ch0);
      Rehash(oldTable, m0, t0, ch0);
      AllMoved(m0, memory, hash, table[..], chains, m0.Keys, index, contents);
      SameCount(m0, memory, index, contents);
    }

    /** Moves all nodes from the old table to the new one. */
    method Rehash(oldTable: array<Addr>, ghost m0: Nodes<K, V>, ghost t0: seq<Addr>, ghost ch0: seq<seq<Addr>>)
      requires TableOk(m0, hash, t0, ch0) && oldTable != table && oldTable[..] == t0 && table.Length == buckets > 0
      requires Moved(m0, memory, hash, table[..], chains, {}) && Visited(m0, hash, ch0, 0, 0, {})
      modifies this`memory, this`chains, table
      ensures Moved(m0, memory, hash, table[..], chains, m0.Keys)
    {
      hide TableOk, Moved, Visited, BucketOf;
      OldLength(m0, hash, t0, ch0);
      ghost var done: set<Addr> := {};
      for i := 0 to oldTable.Length
        invariant oldTable[..] == t0 && Moved(m0, memory, hash, table[..], chains, done)
                  && Visited(m0, hash, ch0, i, 0, done)
      {
        HeadThere(m0, hash, t0, ch0, i);
        done := MoveChain(oldTable[i], m0, t0, ch0, i, done);
      }
      VisitedAll(m0, hash, ch0, done);
    }

    lemma Parameters()
      requires Valid()
      ensures buckets > 0 && maxFactor >= 0.0 && threshold == Threshold(buckets, maxFactor)
    {
    }

    lemma BucketCount()
      requires Valid()
      ensures |chains| == buckets == table.Length > 0
    {
    }

    /** Moves the nodes of one old chain, from its head on. */
    method MoveChain(head: Addr, ghost m0: Nodes<K, V>, ghost t0: seq<Addr>, ghost ch0: seq<seq<Addr>>, ghost i: nat,
        ghost done: set<Addr>)
      returns (ghost done': set<Addr>)
      requires TableOk(m0, hash, t0, ch0) && i < |ch0| && head == Link(ch0[i], 0) && table.Length == buckets > 0
      requires Moved(m0, memory, hash, table[..], chains, done) && Visited(m0, hash, ch0, i, 0, done)
      modifies this`memory, this`chains, table
      ensures Moved(m0, memory, hash, table[..], chains, done') && Visited(m0, hash, ch0, i + 1, 0, done')
    {
      hide TableOk, Moved, Visited, ChainOk, BucketOf;
      done' := done;
      var node := head;
      ghost var k := 0;
      HeadThere(m0, hash, t0, ch0, i);
      while node != 0
        invariant k <= |ch0[i]| && node == Link(ch0[i], k) && (node == 0 ==> k == |ch0[i]|)
        invariant table.Length == buckets && Moved(m0, memory, hash, table[..], chains, done')
                  && Visited(m0, hash, ch0, i, k, done')
        decreases |ch0[i]| - k
      {
        VisitOne(m0, hash, t0, ch0, i, k, done');
        NotMovedYet(m0, memory, hash, table[..], chains, done', node);
        MoveOne(m0, memory, hash, table[..], chains, done', node);
        if k + 1 < |ch0[i]| {
          VisitOne(m0, hash, t0, ch0, i, k + 1, done' + {node});
        }
        var tmp := memory[node].next;
        var b := BucketOf(hash, memory[node].first, buckets);
        memory := memory[node := memory[node].(next := table[b])];
        chains := chains[b := [node] + chains[b]];
        table[b] := node;
        done' := done' + {node};
        node, k := tmp, k + 1;
      }
      VisitNext(m0, hash, t0, ch0, i, done');
    }

    // ----- changing one key -----

    /** `emplace`: a key that is there keeps its value. The place of a new node is chosen by the
        allocator. */
    method Emplace(key: K, val: V) returns (node: Addr, inserted: bool)
      requires Valid()
      modifies this, table
      ensures Valid() && (table == old(table) || fresh(table))
      ensures inserted <==> key !in old(contents)
      ensures contents == if inserted then old(contents)[key := val] else old(contents)
      ensures node in memory && memory[node].first == key && memory[node].second == contents[key]
    {
      hide TableOk, Represents, BucketOf, Threshold;
      Resize();
      var i, last;
      ghost var k;
      i, node, last, k := Locate(key);
      inserted := node == 0;
      if inserted {
        node := Append(key, val, i, last);
      }
    }

    method Append(key: K, val: V, i: nat, last: Addr) returns (node: Addr)
      requires Valid() && key !in contents && |chains| == buckets > 0
      requires i == BucketOf(hash, key, buckets) && last == LastOf(chains[i], |chains[i]|)
      modifies this`memory, this`count, this`chains, this`index, this`contents, table
      ensures Valid() && contents == old(contents)[key := val]
      ensures node in memory && memory[node] == Entry(key, val, 0)
    {
      hide TableOk, Represents, BucketOf, Threshold;
      BucketCount();
      FreeAddress(memory);
      node :| node !in memory && node != 0;
      AppendTable(memory, hash, table[..], chains, node, key, val);
      AppendContents(memory, index, contents, last, node, key, val);
      AppendCount(memory, last, node, key, val);
      LastThere(memory, hash, table[..], chains, i);
      ghost var m, t := memory, table[..];
      memory := memory[node := Entry(key, val, 0)];
      if last == 0 {
        table[i] := node;
      } else {
        memory := memory[last := memory[last].(next := node)];
      }
      assert memory == Appended(m, last, node, key, val);
      assert table[..] == t[i := if chains[i] == [] then node else t[i]];
      count := count + 1;
      chains := chains[i := chains[i] + [node]];
      index, contents := index[key := node], contents[key := val];
    }

    /** `table[key] = val`: the entry is made if it is not there, and then assigned. */
    method Put(key: K, val: V, zero: V)
      requires Valid()
      modifies this, table
      ensures Valid() && (table == old(table) || fresh(table)) && contents == old(contents)[key := val]
    {
      hide TableOk, Represents, BucketOf, Threshold;
      var node, _ := Emplace(key, zero);
      SetTable(memory, hash, table[..], chains, node, val);
      SetContents(memory, index, contents, node, val);
      SameKeys(memory, node, val);
      memory := memory[node := memory[node].(second := val)];
      contents := contents[key := val];
    }

    /** `find` and then `erase` of what was found. */
    method Remove(key: K) returns (removed: bool)
      requires Valid()
      modifies this`memory, this`count, this`chains, this`index, this`contents, table
      ensures Valid() && (removed <==> key in old(contents)) && contents == old(contents) - {key}
    {
      hide TableOk, Represents, BucketOf, Threshold;
      var i, node, last;
      ghost var k;
      i, node, last, k := Locate(key);
      removed := node != 0;
      if removed {
        var _, _, _, _ := Erase(i, node, last, k);
      } else {
        assert contents - {key} == contents;
      }
    }

    /** `erase` of the node an iterator has come to. */
    method Erase(i: nat, node: Addr, last: Addr, ghost k: nat)
        returns (node': Addr, last': Addr, i': nat, ghost k': nat)
      requires Valid() && |chains| == buckets && i < buckets && k < |chains[i]| && node == chains[i][k]
               && last == LastOf(chains[i], k)
      requires node in memory
      modifies this`memory, this`count, this`chains, this`index, this`contents, table
      ensures Valid() && contents == old(contents) - {old(memory)[node].first}
      ensures |chains| == buckets && i <= i' <= buckets && (node' == 0 <==> i' == buckets)
      ensures node' != 0 ==> k' < |chains[i']| && node' == chains[i'][k']
      ensures if i' == i then k' == k < |chains[i]| else |chains[i]| == k && k' == 0 && forall b :: i < b < i' ==>
              chains[b] == []
      ensures node' != 0 ==> (last' == LastOf(chains[i'], k') <==> i' != i)
    {
      NextOf(i, k);
      node' := memory[node].next;
      Unlink(i, node, last, k);
      last', i', k' := node, i, k;
      if node' == 0 {
        node', i' := FirstFrom(i + 1);
        last', k' := 0, 0;
      }
    }

    method Unlink(i: nat, node: Addr, last: Addr, ghost k: nat)
      requires Valid() && |chains| == buckets && i < buckets && k < |chains[i]| && node == chains[i][k]
               && last == LastOf(chains[i], k)
      requires node in memory
      modifies this`memory, this`count, this`chains, this`index, this`contents, table
      ensures Valid() && contents == old(contents) - {old(memory)[node].first}
      ensures chains == old(chains)[i := DropAt(old(chains)[i], k)]
      ensures node !in memory
    {
      hide TableOk, Represents, BucketOf, Threshold;
      ghost var key, ch' := memory[node].first, chains[i := DropAt(chains[i], k)];
      BucketCount();
      RemoveAll(memory, hash, table[..], chains, index, contents, i, k);
      hide Removed, LastOf, DropAt;
      SetRemoved(i, node, last);
      count := count - 1;
      chains, index, contents := ch', index - {key}, contents - {key};
    }

    method SetRemoved(i: nat, node: Addr, last: Addr)
      requires i < table.Length && node in memory && (last != 0 ==> last in memory && last != node)
      modifies this`memory, table
      ensures memory == Removed(old(memory), last, node)
      ensures table[..] == old(table[..])[i := if last == 0 then old(memory)[node].next else old(table[i])]
    {
      if last != 0 {
        memory := memory[last := memory[last].(next := memory[node].next)];
      } else {
        table[i] := memory[node].next;
      }
      memory := memory - {node};
    }

    /** `clear` */
    method Clear()
      requires Valid()
      modifies this`memory, this`count, this`chains, this`index, this`contents, table
      ensures Valid() && contents == map[]
    {
      hide TableOk, Represents, Threshold;
      BucketCount();
      ZeroTable();
      count, memory := 0, map[];
      chains, index, contents := seq(buckets, _ => []), map[], map[];
      EmptyTable<K, V>(hash, table[..], chains);
    }

    method ZeroTable()
      modifies table
      ensures forall b :: 0 <= b < table.Length ==> table[b] == 0
    {
      for i := 0 to table.Length
        invariant forall b :: 0 <= b < i ==> table[b] == 0
      {
        table[i] := 0;
      }
    }

    // ----- iteration -----

    /** `begin`, and the loop of `operator++` over empty buckets: the first node of the first
        bucket from `from` on that is not empty. */
    method FirstFrom(from: nat) returns (node: Addr, i: nat)
      requires Valid() && from <= buckets
      ensures from <= i <= buckets == |chains| && (node == 0 <==> i == buckets)
      ensures forall b :: from <= b < i ==> chains[b] == []
      ensures node != 0 ==> chains[i] != [] && node == chains[i][0] && node in memory
    {
      hide TableOk, Represents, Threshold;
      BucketCount();
      i, node := from, 0;
      while i < buckets
        invariant from <= i <= buckets && node == 0
        invariant forall b :: from <= b < i ==> chains[b] == []
      {
        HeadsOf(i);
        if table[i] != 0 {
          node := table[i];
          return;
        }
        i := i + 1;
      }
    }

    lemma HeadsOf(b: nat)
      requires Valid() && b < buckets
      ensures |chains| == buckets == table.Length && table[b] == Link(chains[b], 0)
              && (table[b] == 0 <==> chains[b] == [])
      ensures table[b] != 0 ==> table[b] in memory
    {
      HeadAt(memory, hash, table[b], chains[b], b, buckets);
    }

    lemma NextOf(b: nat, k: nat)
      requires Valid() && b < buckets && |chains| == buckets && k < |chains[b]|
      ensures chains[b][k] in memory && memory[chains[b][k]].next == Link(chains[b], k + 1) && chains[b][k] != 0
      ensures Link(chains[b], k + 1) == 0 <==> k + 1 == |chains[b]|
    {
      assert ChainOk(memory, hash, table[b], chains[b], b, buckets);
      LinkAt(memory, hash, table[b], chains[b], b, buckets, k);
      if k + 1 < |chains[b]| {
        LinkAt(memory, hash, table[b], chains[b], b, buckets, k + 1);
      }
    }

    /** `operator++` */
    method Advance(node: Addr, i: nat, ghost k: nat) returns (node': Addr, i': nat, ghost k': nat)
      requires Valid() && i < buckets && |chains| == buckets && k < |chains[i]| && node == chains[i][k]
      ensures |chains| == buckets && i <= i' <= buckets && (node' == 0 <==> i' == buckets)
      ensures node' != 0 ==> k' < |chains[i']| && node' == chains[i'][k'] && node' in memory
      ensures if i' == i then k' == k + 1 else k + 1 == |chains[i]| && k' == 0 && forall b :: i < b < i' ==>
              chains[b] == []
    {
      hide TableOk, Represents, Threshold;
      NextOf(i, k);
      node', i', k' := memory[node].next, i, k + 1;
      if node' == 0 {
        node', i' := FirstFrom(i + 1);
        k' := 0;
      } else {
        NextOf(i, k + 1);
      }
    }

    /** A whole iteration meets every entry exactly once. */
    method Iterate() returns (met: seq<Addr>)
      requires Valid()
      ensures NoRepeats(met) && (forall a :: a in met <==> a in memory) && |met| == |memory|
    {
      hide TableOk, Represents, Threshold, Met, NoRepeats;
      var node, i := FirstFrom(0);
      ghost var k: nat := 0;
      met := [];
      MetNothing(i);
      while node != 0
        invariant |chains| == buckets && i <= buckets && (node == 0 <==> i == buckets)
        invariant node != 0 ==> k < |chains[i]| && node == chains[i][k] && node in memory
        invariant node == 0 ==> k == 0
        invariant Met(met, i, k)
        decreases buckets - i, if i < buckets && i < |chains| then |chains[i]| - k else 0
      {
        MetOne(met, i, k);
        met := met + [node];
        ghost var i0, k0 := i, k;
        node, i, k := Advance(node, i, k);
        if i != i0 {
          MetBucket(met, i0, i);
        }
      }
      MetAll(met);
    }

    /** What has been met before place `k` of bucket `i`. */
    ghost predicate Met(met: seq<Addr>, i: nat, k: nat)
      reads this, table
    {
      && buckets > 0 && |chains| == buckets && NoRepeats(met) && (forall a :: a in met ==> a in memory)
      && forall a :: a in memory ==> (a in met <==>
           var b := BucketOf(hash, memory[a].first, buckets);
               b < i || (b == i && k <= |chains[i]| && a in chains[i][..k]))
    }

    lemma MetNothing(i: nat)
      requires Valid() && i <= buckets == |chains| && forall b :: 0 <= b < i ==> chains[b] == []
      ensures Met([], i, 0)
    {
      BucketCount();
      forall a | a in memory ensures BucketOf(hash, memory[a].first, buckets) >= i {
        InBucket(a);
      }
    }

    lemma MetOne(met: seq<Addr>, i: nat, k: nat)
      requires Valid() && Met(met, i, k) && i < |chains| && k < |chains[i]|
      ensures Met(met + [chains[i][k]], i, k + 1)
    {
      hide TableOk, Represents;
      var x := chains[i][k];
      BucketAt(i);
      assert NoRepeats(chains[i]);
      LinkAt(memory, hash, table[i], chains[i], i, buckets, k);
      hide ChainOk, BucketOf;
      assert chains[i][..k + 1] == chains[i][..k] + [x];
    }

    lemma MetBucket(met: seq<Addr>, i: nat, i': nat)
      requires Valid() && |chains| == buckets && i < i' <= buckets && Met(met, i, |chains[i]|)
      requires forall b :: i < b < i' ==> chains[b] == []
      ensures Met(met, i', 0)
    {
      hide TableOk, Represents, BucketOf, NoRepeats;
      assert chains[i][..|chains[i]|] == chains[i];
      forall a | a in memory ensures a in chains[BucketOf(hash, memory[a].first, buckets)] {
        InBucket(a);
      }
    }

    lemma MetAll(met: seq<Addr>)
      requires Valid() && Met(met, buckets, 0)
      ensures NoRepeats(met) && (forall a :: a in met <==> a in memory) && |met| == |memory|
    {
      hide TableOk, Represents;
      SizeOf(met, memory.Keys);
      assert |memory.Keys| == |memory|;
    }

    /** The copy constructor puts the entries it meets into a table of as many buckets. */
    constructor Copy(other: HashTable<K, V>, zero: V)
      requires other.Valid()
      ensures Valid() && contents == other.contents && fresh(table)
    {
      hide TableOk, Represents, Threshold;
      hash, maxFactor := other.hash, other.maxFactor;
      memory, table := map[], new Addr[other.buckets](_ => 0);
      count, buckets, threshold := 0, other.buckets, other.threshold;
      chains, index, contents := seq(other.buckets, _ => []), map[], map[];
      new;
      other.Parameters();
      EmptyTable<K, V>(hash, table[..], chains);
      CopyAll(other, zero);
    }

    method CopyAll(other: HashTable<K, V>, zero: V)
      requires Valid() && contents == map[] && other.Valid() && other != this && other.table != table
      modifies this, table
      ensures Valid() && contents == other.contents && (table == old(table) || fresh(table))
    {
      hide TableOk, Represents, Threshold;
      var met := other.Iterate();
      CopyStart(other.memory, other.index, other.contents, met);
      for n := 0 to |met|
        invariant Valid() && (table == old(table) || fresh(table)) && other.Valid()
        invariant other.memory == old(other.memory) && other.contents == old(other.contents)
        invariant Copied(other.memory, met, n, contents)
      {
        CopyOne(other.memory, met, n, contents);
        Put(other.memory[met[n]].first, other.memory[met[n]].second, zero);
      }
      other.CopiedAll(met, contents);
    }

    lemma CopiedAll(met: seq<Addr>, copy: map<K, V>)
      requires Valid() && (forall a :: a in met <==> a in memory) && Copied(memory, met, |met|, copy)
      ensures copy == contents
    {
      hide TableOk;
      forall key ensures key in copy <==> key in contents {
        if key in contents {
          assert index[key] in met;
        }
      }
      forall key | key in contents ensures copy[key] == contents[key] {
        assert index[key] in met;
      }
    }
  }
}

/**
 How a load is put together byte by byte: `rf` holds, for each byte of the load,
 the write it is read from, or nothing yet.
 */
module ReadAssembly {
  import opened Actions
  import opened Arithmetic

  datatype Option<+T> = None | Some(value: T)

  type Sources = seq<Option<Action>>

  /** Number of bytes still to be found. */
  function Missing(rf: Sources): nat {
    if rf == [] then 0 else (if rf[0].None? then 1 else 0) + Missing(rf[1..])
  }

  predicate Full(rf: Sources) {
    forall i :: 0 <= i < |rf| ==> rf[i].Some?
  }

  /** The bytes of `read` the program takes from `write`: it starts where the write
      starts, or at the first byte, and goes on for the size of the write. */
  predicate Reached(write: Action, read: Action, i: nat) {
    && write.loc < read.loc + read.size
    && read.loc < write.loc + write.size
    && var offset := if write.loc > read.loc then write.loc - read.loc else 0;
       offset <= i < offset + write.size && i < read.size
  }

  function Fill(write: Action, read: Action, rf: Sources): (r: Sources)
    ensures |r| == |rf|
    ensures forall i :: 0 <= i < |rf| ==>
              r[i] == if rf[i].None? && Reached(write, read, i) then Some(write) else rf[i]
  {
    seq(|rf|, i requires 0 <= i < |rf| =>
      if rf[i].None? && Reached(write, read, i) then Some(write) else rf[i])
  }

  // ----- counting -----

  lemma {:induction false} MissingZero(rf: Sources)
    ensures Missing(rf) == 0 <==> Full(rf)
  {
    if rf != [] {
      MissingZero(rf[1..]);
      assert rf == [rf[0]] + rf[1..];
    }
  }

  lemma {:induction false} MissingUpdate(rf: Sources, i: nat, w: Action)
    requires i < |rf| && rf[i].None?
    ensures Missing(rf[i := Some(w)]) == Missing(rf) - 1
  {
    if i == 0 {
      assert rf[i := Some(w)][1..] == rf[1..];
    } else {
      assert rf[i := Some(w)][1..] == rf[1..][i - 1 := Some(w)];
      MissingUpdate(rf[1..], i - 1, w);
    }
  }

  lemma {:induction false} MissingAll(n: nat)
    ensures Missing(seq(n, _ => None)) == n
  {
    if n > 0 {
      MissingAll(n - 1);
      assert seq(n, _ => None)[1..] == seq<Option<Action>>(n - 1, _ => None);
    }
  }

  // ----- the loops -----

  /** Fills what is still empty; says whether anything was. */
  method GetOverlaps(write: Action, read: Action, rf: array<Option<Action>>, numslotsleft: nat)
    returns (ret: bool, left: nat)
    requires rf.Length == read.size && numslotsleft == Missing(rf[..]) && numslotsleft > 0
    modifies rf
    ensures rf[..] == Fill(write, read, old(rf[..]))
    ensures left == Missing(rf[..])
    ensures ret <==> rf[..] != old(rf[..])
  {
    hide Missing;
    ret, left := false, numslotsleft;
    var wtop, rtop := write.loc + write.size, read.loc + read.size;
    if write.loc >= rtop || read.loc >= wtop {
      assert rf[..] == Fill(write, read, rf[..]);
      return;
    }
    var offset := if write.loc > read.loc then write.loc - read.loc else 0;
    var i := offset;
    while i < offset + write.size && i < read.size
      invariant offset <= i <= offset + write.size && i <= read.size
      invariant forall k :: 0 <= k < read.size ==>
                  rf[k] == if k < i then Fill(write, read, old(rf[..]))[k] else old(rf[k])
      invariant left == Missing(rf[..]) > 0
      invariant ret <==> exists k :: 0 <= k < read.size && rf[k] != old(rf[k])
    {
      if rf[i].None? {
        ret := true;
        MissingUpdate(rf[..], i, write);
        ghost var before := rf[..];
        rf[i] := Some(write);
        assert rf[..] == before[i := Some(write)];
        left := left - 1;
        if left == 0 {
          MissingZero(rf[..]);
          assert forall k :: 0 <= k < read.size ==> rf[..][k].Some?;
          assert rf[..] == Fill(write, read, old(rf[..]));
          assert rf[..][i] != old(rf[..])[i];
          return;
        }
      }
      i := i + 1;
    }
    assert rf[..] == Fill(write, read, old(rf[..]));
    if rf[..] != old(rf[..]) {
      assert exists k :: 0 <= k < read.size && rf[..][k] != old(rf[..])[k];
    }
  }

  /** As `GetOverlaps`, but hands back a copy of the sources from before, if they changed. */
  method GetOverlapsSaveOld(write: Action, read: Action, rf: array<Option<Action>>, numslotsleft: nat)
    returns (saved: array?<Option<Action>>, left: nat)
    requires rf.Length == read.size && numslotsleft == Missing(rf[..]) && numslotsleft > 0
    modifies rf
    ensures rf[..] == Fill(write, read, old(rf[..]))
    ensures left == Missing(rf[..])
    ensures saved == null <==> rf[..] == old(rf[..])
    ensures saved != null ==> fresh(saved) && saved[..] == old(rf[..])
  {
    hide Missing;
    saved, left := null, numslotsleft;
    var wtop, rtop := write.loc + write.size, read.loc + read.size;
    if write.loc >= rtop || read.loc >= wtop {
      assert rf[..] == Fill(write, read, rf[..]);
      return;
    }
    var offset := if write.loc > read.loc then write.loc - read.loc else 0;
    var i := offset;
    while i < offset + write.size && i < read.size
      invariant offset <= i <= offset + write.size && i <= read.size
      invariant forall k :: 0 <= k < read.size ==>
                  rf[k] == if k < i then Fill(write, read, old(rf[..]))[k] else old(rf[k])
      invariant left == Missing(rf[..]) > 0
      invariant saved == null ==> forall k :: 0 <= k < read.size ==> rf[k] == old(rf[k])
      invariant saved != null ==> fresh(saved) && saved[..] == old(rf[..])
      invariant saved != null ==> exists k :: 0 <= k < read.size && rf[k] != old(rf[k])
    {
      if rf[i].None? {
        if saved == null {
          saved := new Option<Action>[rf.Length](k requires 0 <= k < rf.Length reads rf => rf[k]);
          assert saved[..] == rf[..] == old(rf[..]);
        }
        MissingUpdate(rf[..], i, write);
        ghost var before := rf[..];
        rf[i] := Some(write);
        assert rf[..] == before[i := Some(write)];
        left := left - 1;
        if left == 0 {
          MissingZero(rf[..]);
          assert forall k :: 0 <= k < read.size ==> rf[..][k].Some?;
          assert rf[..] == Fill(write, read, old(rf[..]));
          assert rf[..][i] != old(rf[..])[i];
          return;
        }
      }
      i := i + 1;
    }
    assert rf[..] == Fill(write, read, old(rf[..]));
    if rf[..] == old(rf[..]) {
      assert forall k :: 0 <= k < read.size ==> rf[..][k] == old(rf[..])[k];
    } else {
      assert exists k :: 0 <= k < read.size && rf[..][k] != old(rf[..])[k];
    }
  }

  // ----- what is filled, and when it is right -----

  /** The write and the load meet, but the write starts before the load and ends inside it. */
  predicate HangsOver(write: Action, read: Action) {
    write.loc < read.loc < write.loc + write.size < read.loc + read.size
  }

  /** The bytes taken from the write are exactly those it covers, unless it hangs over. */
  lemma ReachedIsCovered(write: Action, read: Action)
    ensures (forall i: nat :: i < read.size ==> (Reached(write, read, i) <==> Covers(write, read.loc + i)))
       <==> !HangsOver(write, read)
  {
    if HangsOver(write, read) {
      var i := write.loc + write.size - read.loc;
      assert Reached(write, read, i) && !Covers(write, read.loc + i);
    }
  }

  lemma AlignedCases(a: Action)
    requires Aligned(a)
    ensures a.size == 1 || (a.size == 2 && a.loc % 2 == 0) || (a.size == 4 && a.loc % 4 == 0)
         || (a.size == 8 && a.loc % 8 == 0)
  {
  }

  /** Of two access sizes the smaller divides the larger. */
  lemma SizesNest(a: Action, b: Action) returns (k: nat)
    requires Aligned(a) && Aligned(b) && a.size <= b.size
    ensures k > 0 && b.size == a.size * k
  {
    AlignedCases(a);
    AlignedCases(b);
    hide Aligned;
    k := b.size / a.size;
  }

  lemma Coarser(x: nat, m: nat, k: nat)
    requires m > 0 && m * k > 0 && x % (m * k) == 0
    ensures x % m == 0
  {
    Division(x, m * k);
    MulAssoc(m, k, x / (m * k));
    QuotientUnique(x, m, k * (x / (m * k)), 0);
  }

  /** Two multiples of `d` that are apart are at least `d` apart. */
  lemma Apart(a: nat, b: nat, d: nat)
    requires d > 0 && a % d == 0 && b % d == 0 && a < b
    ensures a + d <= b
  {
    Division(a, d);
    Division(b, d);
    MulOrder(d, a / d, b / d);
    MulOrder(d, b / d, a / d);
  }

  lemma SumMultiple(a: nat, m: nat, d: nat, k: nat)
    requires d > 0 && a % d == 0 && m == d * k
    ensures (a + m) % d == 0
  {
    Division(a, d);
    MulDistribute(d, a / d, k);
    QuotientUnique(a + m, d, a / d + k, 0);
  }

  /** Naturally aligned accesses never hang over: one contains the other or they are apart. */
  lemma AlignedNeverHangsOver(write: Action, read: Action)
    requires Aligned(write) && Aligned(read)
    ensures !HangsOver(write, read)
  {
    if write.size < read.size {
      var k := SizesNest(write, read);
      Coarser(read.loc, write.size, k);
      if write.loc < read.loc {
        Apart(write.loc, read.loc, write.size);
      }
    } else {
      var k := SizesNest(read, write);
      Coarser(write.loc, read.size, k);
      SumMultiple(write.loc, write.size, read.size, k);
      if read.loc < write.loc + write.size {
        Apart(read.loc, write.loc + write.size, read.size);
      }
    }
  }

  // ----- the value -----

  /** The byte a source provides for byte `i` of the load. */
  function SourceByte(read: Action, rf: Sources, i: nat): nat
    requires i < |rf|
  {
    if rf[i].Some? && rf[i].value.loc <= read.loc + i then ByteAt(rf[i].value, read.loc + i) else 0
  }

  /** No source starts after the byte it is the source of. */
  predicate InRange(read: Action, rf: Sources) {
    forall i :: 0 <= i < |rf| ==> rf[i].Some? ==> rf[i].value.loc <= read.loc + i
  }

  lemma {:induction false} ShiftBytes(v: nat, b: nat, n: nat)
    requires b < 256
    ensures ByteOf(256 * v + b, 0) == b
    ensures ByteOf(256 * v + b, n + 1) == ByteOf(v, n)
  {
    assert (256 * v + b) / Pow256(0) == 256 * v + b;
    var p := Pow256(n);
    assert Pow256(n + 1) == 256 * p;
    var x := 256 * v + b;
    assert x / 256 == v;
    DivDiv(x, 256, p);
  }

  /** Assembles the value, most significant byte first; bytes without a source are 0. */
  method GetReadValue(read: Action, rf: array<Option<Action>>) returns (value: nat)
    requires InRange(read, rf[..])
    ensures value < Pow256(rf.Length)
    ensures forall i :: 0 <= i < rf.Length ==> ByteOf(value, i) == SourceByte(read, rf[..], i)
  {
    value := 0;
    var i := rf.Length - 1;
    while i >= 0
      invariant -1 <= i < rf.Length
      invariant value < Pow256(rf.Length - 1 - i)
      invariant forall k :: i < k < rf.Length ==> ByteOf(value, k - i - 1) == SourceByte(read, rf[..], k)
    {
      var higher := value;
      var b := 0;
      value := value * 256;
      if rf[i].Some? {
        var write := rf[i].value;
        var writevalue := write.value / Pow256(read.loc + i - write.loc);
        b := writevalue % 256;
        value := value + b;
      }
      assert b == SourceByte(read, rf[..], i) && value == 256 * higher + b;
      ShiftBytes(higher, b, 0);
      forall k | i <= k < rf.Length ensures ByteOf(value, k - i) == SourceByte(read, rf[..], k) {
        if k > i {
          ShiftBytes(higher, b, k - i - 1);
        }
      }
      i := i - 1;
    }
  }

  /** A value is determined by its bytes. */
  lemma {:induction false} BytesDetermine(v: nat, v': nat, n: nat)
    requires v < Pow256(n) && v' < Pow256(n)
    requires forall i :: 0 <= i < n ==> ByteOf(v, i) == ByteOf(v', i)
    ensures v == v'
  {
    if n > 0 {
      var a, b := v / 256, v % 256;
      var a', b' := v' / 256, v' % 256;
      ShiftBytes(a, b, 0);
      ShiftBytes(a', b', 0);
      forall i | 0 <= i < n - 1 ensures ByteOf(a, i) == ByteOf(a', i) {
        ShiftBytes(a, b, i);
        ShiftBytes(a', b', i);
        assert ByteOf(v, i + 1) == ByteOf(v', i + 1);
      }
      BytesDetermine(a, a', n - 1);
    }
  }
}

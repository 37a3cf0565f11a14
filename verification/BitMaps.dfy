/**
 Sets of bin numbers as words of 32 bits, least significant bit first, and the word
 arithmetic that finds the next bin that is not empty.
 */
module BitMaps {
  const MAP_BITS: nat := 32

  type BinMap = w: seq<bool> | |w| == MAP_BITS witness seq(MAP_BITS, _ => false)

  /** The bins a map marks. */
  function Marked(w: BinMap): set<nat> {
    set i: nat | i < MAP_BITS && w[i]
  }

  function Zero(): BinMap {
    seq(MAP_BITS, _ => false)
  }

  function And(v: BinMap, w: BinMap): BinMap {
    seq(MAP_BITS, i requires 0 <= i < MAP_BITS => v[i] && w[i])
  }

  function Or(v: BinMap, w: BinMap): BinMap {
    seq(MAP_BITS, i requires 0 <= i < MAP_BITS => v[i] || w[i])
  }

  function Not(w: seq<bool>): (r: seq<bool>)
    ensures |r| == |w| && forall i :: 0 <= i < |w| ==> r[i] == !w[i]
  {
    seq(|w|, i requires 0 <= i < |w| => !w[i])
  }

  /** `w << n` */
  function ShiftLeft(w: BinMap, n: nat): BinMap {
    seq(MAP_BITS, i requires 0 <= i < MAP_BITS => n <= i && w[i - n])
  }

  /** `w >> n` */
  function ShiftRight(w: BinMap, n: nat): BinMap {
    seq(MAP_BITS, i requires 0 <= i < MAP_BITS => i + n < MAP_BITS && w[i + n])
  }

  /** Adds 1, with the carry. */
  function Increment(w: seq<bool>): (r: seq<bool>)
    ensures |r| == |w|
  {
    if w == [] then [] else if w[0] then [false] + Increment(w[1..]) else [true] + w[1..]
  }

  /** `-w`, in two's complement */
  function Minus(w: BinMap): BinMap {
    Increment(Not(w))
  }

  /** `idx2bit` */
  function IdxToBit(i: nat): BinMap {
    ShiftLeft(seq(MAP_BITS, j => j == 0), i)
  }

  /** `least_bit` */
  function LeastBit(x: BinMap): BinMap {
    And(x, Minus(x))
  }

  /** `left_bits` */
  function LeftBits(x: BinMap): BinMap {
    Or(ShiftLeft(x, 1), Minus(ShiftLeft(x, 1)))
  }

  /** `compute_bit2idx`: the number of zeros below the first one. */
  function BitToIdx(x: seq<bool>): (i: nat)
    ensures i <= |x| && (forall j :: 0 <= j < i ==> !x[j]) && (i < |x| ==> x[i])
  {
    if x == [] || x[0] then 0 else 1 + BitToIdx(x[1..])
  }

  /** Negation keeps a word up to its least bit and flips the rest. */
  lemma {:induction false} NegatedBits(w: seq<bool>)
    ensures forall i :: 0 <= i < |w| ==> Increment(Not(w))[i] == if i <= BitToIdx(w) then w[i] else !w[i]
  {
    if w != [] {
      assert Not(w)[1..] == Not(w[1..]);
      if !w[0] {
        NegatedBits(w[1..]);
      }
    }
  }

  /** The least bit is the only one that a word has in common with its negation. */
  lemma LeastBitIs(x: BinMap)
    ensures forall i: nat :: i < MAP_BITS ==> (LeastBit(x)[i] <==> i == BitToIdx(x))
    ensures BitToIdx(LeastBit(x)) == BitToIdx(x)
  {
    NegatedBits(x);
    FirstBit(LeastBit(x), BitToIdx(x));
  }

  /** The bits to the left of a single one. */
  lemma LeftBitsOf(i: nat, j: nat)
    requires i < MAP_BITS && j < MAP_BITS
    ensures LeftBits(IdxToBit(i))[j] <==> j > i
  {
    var y := ShiftLeft(IdxToBit(i), 1);
    assert forall k: nat :: k < MAP_BITS ==> (y[k] <==> k == i + 1);
    FirstBit(y, i + 1);
    NegatedBits(y);
  }

  lemma FirstBit(x: BinMap, i: nat)
    requires i <= MAP_BITS && forall j: nat :: j < MAP_BITS ==> (x[j] <==> j == i)
    ensures BitToIdx(x) == i
  {
    var b := BitToIdx(x);
    assert i < MAP_BITS ==> x[i];
    assert b < MAP_BITS ==> x[b];
  }

  lemma MarkedZero(w: BinMap)
    ensures w == Zero() <==> Marked(w) == {}
  {
    if Marked(w) == {} {
      forall i | 0 <= i < MAP_BITS ensures w[i] == Zero()[i] {
        assert i !in Marked(w);
      }
    }
  }

  /** `mark_smallmap`, `mark_treemap` */
  function Mark(w: BinMap, i: nat): BinMap {
    Or(w, IdxToBit(i))
  }

  /** `clear_smallmap`, `clear_treemap` */
  function Clear(w: BinMap, i: nat): BinMap {
    And(w, Not(IdxToBit(i)))
  }

  lemma InMarked(w: BinMap, i: nat)
    requires i < MAP_BITS
    ensures i in Marked(w) <==> w[i]
  {
  }

  lemma MarkOne(w: BinMap, i: nat)
    requires i < MAP_BITS
    ensures Marked(Mark(w, i)) == Marked(w) + {i}
  {
  }

  lemma MarkedAlready(w: BinMap, i: nat)
    requires i < MAP_BITS && w[i]
    ensures Mark(w, i) == w
  {
    forall j | 0 <= j < MAP_BITS ensures Mark(w, i)[j] == w[j] {
    }
  }

  lemma ClearOne(w: BinMap, i: nat)
    requires i < MAP_BITS
    ensures Marked(Clear(w, i)) == Marked(w) - {i}
  {
  }

  /** The least marked bin of a word. */
  lemma LeastOf(x: BinMap)
    ensures var i := BitToIdx(LeastBit(x));
            if x == Zero() then i == MAP_BITS else i in Marked(x) && forall j :: j in Marked(x) ==> i <= j
  {
    LeastBitIs(x);
    MarkedZero(x);
  }

  /** The least marked bin after bin `idx`. */
  lemma LeftOf(w: BinMap, idx: nat)
    requires idx < MAP_BITS
    ensures Marked(And(LeftBits(IdxToBit(idx)), w)) == set i | i in Marked(w) && i > idx
  {
    forall i: nat | i < MAP_BITS ensures LeftBits(IdxToBit(idx))[i] <==> i > idx {
      LeftBitsOf(idx, i);
    }
  }

  /** What is left of a word that is shifted right and left again. */
  lemma ShiftedBack(w: BinMap, n: nat)
    ensures Marked(ShiftLeft(ShiftRight(w, n), n)) == set i | i in Marked(w) && i >= n
  {
  }

  lemma AndSwapped(v: BinMap, w: BinMap)
    ensures And(v, w) == And(w, v)
  {
    assert forall i :: 0 <= i < MAP_BITS ==> And(v, w)[i] == And(w, v)[i];
  }

  lemma ShiftedEmpty(w: BinMap, n: nat)
    requires ShiftRight(w, n) == Zero()
    ensures forall j :: j in Marked(w) ==> j < n
  {
    forall j | n <= j < MAP_BITS ensures !w[j] {
      assert !ShiftRight(w, n)[j - n];
    }
  }
}

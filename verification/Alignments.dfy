/** Alignments that are asked for: powers of two, and what other numbers are rounded up to. */
module Alignments {
  import opened MallocUnits
  import opened Arithmetic
  import opened HeapShape

  predicate PowerOfTwo(n: nat) {
    n == 1 || (n > 1 && n % 2 == 0 && PowerOfTwo(n / 2))
  }

  lemma Half(n: nat)
    requires PowerOfTwo(n) && n > 1
    ensures n == 2 * (n / 2) && PowerOfTwo(n / 2)
  {
  }

  lemma {:induction false} PowersOnGrid(n: nat)
    requires PowerOfTwo(n) && n >= ALIGNMENT
    ensures OnGrid(n)
  {
    hide PowerOfTwo;
    Half(n);
    if n >= 2 * ALIGNMENT {
      PowersOnGrid(n / 2);
      GridSum(n / 2, n / 2);
    } else {
      Half(n / 2);
      Half(n / 2 / 2);
    }
  }

  /** The first of `a`, `2 * a`, ... that is at least `n`. */
  function Doubled(a: nat, n: nat): (r: nat)
    requires PowerOfTwo(a)
    ensures PowerOfTwo(r) && n <= r && a <= r && (a >= n ==> r == a) && (a < n ==> r < 2 * n)
    decreases if a < n then n - a else 0
  {
    if a < n then
      Twice(a);
      Doubled(2 * a, n)
    else a
  }

  lemma ChunkPower()
    ensures PowerOfTwo(MIN_CHUNK_SIZE)
  {
    assert PowerOfTwo(2) && PowerOfTwo(4) && PowerOfTwo(8) && PowerOfTwo(16);
  }

  lemma Twice(a: nat)
    requires PowerOfTwo(a)
    ensures a > 0 && PowerOfTwo(2 * a)
  {
    assert (2 * a) / 2 == a;
  }

  /** The alignment `memalign` works with. */
  function Rounded(alignment: nat): (r: nat)
    ensures PowerOfTwo(r) && r >= MIN_CHUNK_SIZE && r >= alignment
  {
    var a := if alignment < MIN_CHUNK_SIZE then MIN_CHUNK_SIZE else alignment;
    ChunkPower();
    if PowerOfTwo(a) then a else Doubled(MIN_CHUNK_SIZE, a)
  }

  /** Rounding an address up to a multiple of `a`. */
  lemma AlignUp(x: nat, a: nat)
    requires a > 0 && x % a != 0
    ensures var y := (x + a - 1) / a * a; x < y < x + a && y % a == 0 && (y + a) % a == 0
  {
    var q, r := x / a, x % a;
    Division(x, a);
    MulDistribute(a, q, 1);
    MulDistribute(a, q, 2);
    QuotientUnique(x + a - 1, a, q + 1, r - 1);
    QuotientUnique(a * (q + 1), a, q + 1, 0);
    QuotientUnique(a * (q + 2), a, q + 2, 0);
    assert (q + 1) * a == a * (q + 1);
  }

  lemma {:induction false} GridMultiple(k: nat, a: nat)
    requires OnGrid(a)
    ensures OnGrid(k * a)
  {
    if k > 0 {
      GridMultiple(k - 1, a);
      assert k * a == (k - 1) * a + a;
      GridSum((k - 1) * a, a);
    }
  }
}

/** The bits of a size, from the highest one its bin resolves downwards. */
module TrieBits {
  import opened MallocUnits
  import opened Arithmetic
  import opened TreeIndex

  /** The `d` highest of the `w` resolved bits, with everything above them. */
  function Prefix(s: nat, w: nat, d: nat): nat
    requires d <= w
  {
    Quotient(s, Pow2(w - d))
  }

  /** The bit that decides between the children of a node at depth `d`. */
  function Bit(s: nat, w: nat, d: nat): (b: nat)
    ensures b < 2
  {
    if d < w then Prefix(s, w, d + 1) % 2 else 0
  }

  lemma PrefixStep(s: nat, w: nat, d: nat)
    requires d < w
    ensures Prefix(s, w, d + 1) == 2 * Prefix(s, w, d) + Bit(s, w, d)
  {
    var p := Pow2(w - d - 1);
    assert Pow2(w - d) == 2 * p;
    DivDiv(s, p, 2);
    assert p * 2 == 2 * p;
  }

  lemma PrefixAll(s: nat, w: nat)
    ensures Prefix(s, w, w) == s
  {
  }

  /** Sizes that differ in their prefixes are ordered like them. */
  lemma {:induction false} PrefixGreater(a: nat, b: nat, w: nat, d: nat, e: nat)
    requires d <= e <= w && Prefix(a, w, d) > Prefix(b, w, d)
    ensures Prefix(a, w, e) > Prefix(b, w, e)
  {
    hide Prefix, Bit;
    if d < e {
      PrefixGreater(a, b, w, d, e - 1);
      PrefixStep(a, w, e - 1);
      PrefixStep(b, w, e - 1);
    }
  }

  lemma GreaterSize(a: nat, b: nat, w: nat, d: nat)
    requires d <= w && Prefix(a, w, d) > Prefix(b, w, d)
    ensures a > b
  {
    hide Prefix;
    PrefixGreater(a, b, w, d, w);
    PrefixAll(a, w);
    PrefixAll(b, w);
  }

  /** Equal prefixes are equal all the way up. */
  lemma PrefixEqual(a: nat, b: nat, w: nat, d: nat, e: nat)
    requires d <= e <= w && Prefix(a, w, e) == Prefix(b, w, e)
    ensures Prefix(a, w, d) == Prefix(b, w, d)
  {
    hide Prefix;
    if Prefix(a, w, d) > Prefix(b, w, d) {
      PrefixGreater(a, b, w, d, e);
    } else if Prefix(a, w, d) < Prefix(b, w, d) {
      PrefixGreater(b, a, w, d, e);
    }
  }

  // ----- shifting -----

  /** `size << e` in 64 bits. */
  function Shl(x: nat, e: nat): (r: nat)
    ensures r < WORD
  {
    (x * Pow2(e)) % WORD
  }

  const HALF_WORD: nat := 0x8000_0000_0000_0000

  function TopBit(x: nat): nat {
    Quotient(x, HALF_WORD)
  }

  function LeftShift(i: nat): nat
    requires i < NTREEBINS
  {
    SIZE_T_BITSIZE - Width(i)
  }

  lemma ShlStep(x: nat, e: nat)
    ensures Shl(Shl(x, e), 1) == Shl(x, e + 1)
  {
    var y := x * Pow2(e);
    MulAssoc(x, Pow2(e), 2);
    assert Pow2(e + 1) == Pow2(e) * 2 && Pow2(1) == 2;
    hide Pow2, Shl;
    Doubled(y, WORD);
    ShlIs(x, e);
    ShlIs(Shl(x, e), 1);
    ShlIs(x, e + 1);
  }

  lemma ShlIs(x: nat, e: nat)
    ensures Shl(x, e) == (x * Pow2(e)) % WORD
  {
  }

  lemma Doubled(y: nat, m: nat)
    requires m > 0
    ensures ((y % m) * 2) % m == (y * 2) % m
  {
    var q, r := y / m, y % m;
    Division(y, m);
    Division(r * 2, m);
    MulDistribute(m, 2 * q, (r * 2) / m);
    MulAssoc(m, q, 2);
    assert m * (2 * q) == (m * q) * 2;
    QuotientUnique(y * 2, m, 2 * q + (r * 2) / m, (r * 2) % m);
  }

  lemma LowPart(r: nat, p: nat, f: nat)
    requires r < p && f > 0 && p * f == HALF_WORD
    ensures r * f < HALF_WORD
  {
    MulOrder(f, r, p);
  }

  lemma HalfPower(n: nat, e: nat)
    requires n + e == 63
    ensures Pow2(n) * Pow2(e) == HALF_WORD
  {
    hide Pow2;
    Powers();
    SmallPowers();
    Pow2Sum(n, e);
    Pow2Sum(1, 63);
  }

  /** The shifted size starts with the bit the trie looks at. */
  lemma ShiftedBit(s: nat, w: nat, d: nat)
    requires d < w <= SIZE_T_BITSIZE
    ensures TopBit(Shl(s, SIZE_T_BITSIZE - w + d)) == Bit(s, w, d)
  {
    hide Pow2, Bit;
    var n := w - d - 1;
    var e := SIZE_T_BITSIZE - w + d;
    var p := Pow2(n);
    Division(s, p);
    PrefixStep(s, w, d);
    HalfPower(n, e);
    LowPart(s % p, p, Pow2(e));
    Scaled(s, p, Prefix(s, w, d + 1), s % p, Pow2(e));
    TopOf(Prefix(s, w, d), Bit(s, w, d), (s % p) * Pow2(e));
  }

  lemma Scaled(s: nat, p: nat, c: nat, r: nat, f: nat)
    requires s == p * c + r && p * f == HALF_WORD
    ensures s * f == HALF_WORD * c + r * f
  {
    MulDistribute(f, p * c, r);
    MulAssoc(f, p, c);
    assert f * p == p * f;
  }

  lemma TopOf(q: nat, b: nat, low: nat)
    requires b < 2 && low < HALF_WORD
    ensures TopBit((HALF_WORD * (2 * q + b) + low) % WORD) == b
  {
    QuotientUnique(HALF_WORD * (2 * q + b) + low, WORD, q, HALF_WORD * b + low);
    QuotientUnique(HALF_WORD * b + low, HALF_WORD, b, low);
  }

  /** Beyond the last bit nothing is left. */
  lemma ShiftedOut(s: nat, e: nat)
    requires e >= SIZE_T_BITSIZE
    ensures Shl(s, e) == 0 && TopBit(0) == 0
  {
    var k := e - SIZE_T_BITSIZE;
    hide Pow2;
    Pow2Sum(SIZE_T_BITSIZE, k);
    Powers();
    MulAssoc(WORD, Pow2(k), s);
    assert s * Pow2(e) == WORD * (Pow2(k) * s);
    QuotientUnique(s * Pow2(e), WORD, Pow2(k) * s, 0);
  }
}

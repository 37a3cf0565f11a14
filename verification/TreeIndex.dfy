/**
 Which tree bin a chunk size belongs to, and how the bits of a size lead down the
 bitwise trie of its bin.
 */
module TreeIndex {
  import opened MallocUnits
  import opened Arithmetic

  const NTREEBINS: nat := 32
  const TREEBIN_SHIFT: nat := 8
  const SIZE_T_BITSIZE: nat := 64

  function Pow2(n: nat): (r: nat)
    ensures r >= 1
  {
    if n == 0 then 1 else 2 * Pow2(n - 1)
  }

  lemma Pow2Next(n: nat)
    ensures Pow2(n + 1) == 2 * Pow2(n)
  {
  }

  lemma {:induction false} Pow2Sum(a: nat, b: nat)
    ensures Pow2(a + b) == Pow2(a) * Pow2(b)
  {
    if a > 0 {
      Pow2Sum(a - 1, b);
      MulAssoc(2, Pow2(a - 1), Pow2(b));
    }
  }

  lemma {:induction false} Pow2Order(a: nat, b: nat)
    requires a <= b
    ensures Pow2(a) <= Pow2(b)
  {
    if a < b {
      Pow2Order(a, b - 1);
    }
  }

  /** The place of the highest bit of `x`. */
  function Log2(x: nat): (k: nat)
    requires x > 0
    ensures Pow2(k) <= x < Pow2(k + 1)
  {
    if x == 1 then 0 else 1 + Log2(x / 2)
  }

  /** `compute_tree_index`, which keeps 32 bits of the shifted size. */
  function Index(size: nat): (i: nat) {
    var x := (size / 256) % 0x1_0000_0000;
    if x == 0 then 0
    else if x > 0xFFFF then NTREEBINS - 1
    else 2 * Log2(x) + Quotient(size, Pow2(Log2(x) + (TREEBIN_SHIFT - 1))) % 2
  }

  /** How many bits of the sizes in bin `i` the trie resolves. */
  function Width(i: nat): nat {
    if i == NTREEBINS - 1 then SIZE_T_BITSIZE else i / 2 + (TREEBIN_SHIFT - 1)
  }

  /** The smallest size in bin `i`. */
  function MinSize(i: nat): nat {
    Pow2(i / 2 + TREEBIN_SHIFT) + (i % 2) * Pow2(i / 2 + (TREEBIN_SHIFT - 1))
  }

  /** The bin for `size` is the one whose interval of sizes it lies in. */
  predicate RightBin(size: nat) {
    MinSize(Index(size)) <= size && (Index(size) == NTREEBINS - 1 || size < MinSize(Index(size) + 1))
  }

  /** A size that may be put into a tree bin. */
  predicate Large(size: nat) {
    MIN_LARGE_SIZE <= size < WORD && RightBin(size)
  }

  /** With no bits lost, the highest bit and the next one make the index. */
  lemma IndexBits(size: nat) returns (k: nat)
    requires 256 <= size < 0x100_0000
    ensures k < 16 && Pow2(k + 8) <= size < Pow2(k + 9)
    ensures (Index(size) == 2 * k && 2 * Pow2(k + 7) <= size < 3 * Pow2(k + 7))
         || (Index(size) == 2 * k + 1 && 3 * Pow2(k + 7) <= size < 4 * Pow2(k + 7))
  {
    hide Index, Pow2;
    var x := size / 256;
    assert 0 < x <= 0xFFFF && x % 0x1_0000_0000 == x;
    k := Log2(x);
    Powers();
    if k >= 16 {
      Pow2Order(16, k);
    }
    Pow2Sum(8, k);
    Pow2Sum(8, k + 1);
    MulOrder(256, Pow2(k), x);
    MulOrder(256, x + 1, Pow2(k + 1));
    Division(size, 256);
    Pow2Next(k + 8);
    Pow2Next(k + 7);
    IndexFrom(size, x, Pow2(k + 7));
  }

  lemma IndexFrom(size: nat, x: nat, d: nat)
    requires x == (size / 256) % 0x1_0000_0000 && 0 < x <= 0xFFFF && d == Pow2(Log2(x) + 7)
    requires 2 * d <= size < 4 * d
    ensures Index(size) == 2 * Log2(x) + if size < 3 * d then 0 else 1
  {
    hide Pow2, Log2;
    QuotientBetween(size, d);
  }

  lemma QuotientBetween(x: nat, d: nat)
    requires d > 0 && 2 * d <= x < 4 * d
    ensures x / d == if x < 3 * d then 2 else 3
  {
    if x < 3 * d {
      QuotientUnique(x, d, 2, x - 2 * d);
    } else {
      QuotientUnique(x, d, 3, x - 3 * d);
    }
  }

  lemma SmallPowers()
    ensures Pow2(0) == 1 && Pow2(1) == 2 && Pow2(4) == 16
  {
  }

  lemma Powers()
    ensures Pow2(8) == 0x100 && Pow2(16) == 0x1_0000 && Pow2(22) == 0x40_0000 && Pow2(23) == 0x80_0000
            && Pow2(24) == 0x100_0000
    ensures Pow2(32) == 0x1_0000_0000 && Pow2(40) == 0x100_0000_0000 && Pow2(64) == WORD == 0x1_0000_0000_0000_0000
  {
    hide Pow2;
    SmallPowers();
    Pow2Sum(4, 4);
    Pow2Sum(8, 8);
    Pow2Sum(16, 4);
    Pow2Sum(1, 1);
    Pow2Sum(20, 2);
    Pow2Sum(22, 1);
    Pow2Sum(16, 8);
    Pow2Sum(16, 16);
    Pow2Sum(32, 8);
    Pow2Sum(32, 32);
  }

  // ----- sizes and bins -----

  /** `MinSize(i)` in units of the part of the size that bin `i` resolves. */
  lemma MinSizeUnits(i: nat)
    requires i <= NTREEBINS
    ensures if i % 2 == 0 then MinSize(i) == 2 * Pow2(i / 2 + 7) && MinSize(i + 1) == 3 * Pow2(i / 2 + 7)
            else MinSize(i) == 3 * Pow2(i / 2 + 7) && MinSize(i + 1) == 4 * Pow2(i / 2 + 7)
  {
    var k := i / 2;
    assert Pow2(k + 8) == 2 * Pow2(k + 7) && Pow2(k + 9) == 2 * Pow2(k + 8);
    hide Pow2;
    if i % 2 == 0 {
      assert (i + 1) / 2 == k && (i + 1) % 2 == 1;
    } else {
      assert (i + 1) / 2 == k + 1 && (i + 1) % 2 == 0;
    }
  }

  lemma {:induction false} MinSizeOrder(i: nat, j: nat)
    requires i <= j <= NTREEBINS
    ensures MinSize(i) <= MinSize(j)
  {
    if i < j {
      MinSizeOrder(i, j - 1);
      MinSizeUnits(j - 1);
    }
  }

  lemma IndexBound(size: nat)
    ensures Index(size) < NTREEBINS
  {
    hide Pow2;
    var x := (size / 256) % 0x1_0000_0000;
    if 0 < x <= 0xFFFF {
      Powers();
      if Log2(x) >= 16 {
        Pow2Order(16, Log2(x));
      }
    }
  }

  /** A larger bin holds larger sizes. */
  lemma BinsOrdered(s: nat, t: nat)
    requires RightBin(s) && RightBin(t) && Index(s) < Index(t)
    ensures s < t
  {
    hide Index, MinSize;
    IndexBound(t);
    MinSizeOrder(Index(s) + 1, Index(t));
  }

  /** The sizes of one bin agree in the bits the trie does not look at. */
  lemma SameBin(s: nat, t: nat)
    requires Large(s) && Large(t) && Index(s) == Index(t)
    ensures Quotient(s, Pow2(Width(Index(s)))) == Quotient(t, Pow2(Width(Index(s))))
  {
    BinQuotient(s);
    BinQuotient(t);
  }

  lemma BinQuotient(s: nat)
    requires Large(s)
    ensures Quotient(s, Pow2(Width(Index(s)))) == if Index(s) == NTREEBINS - 1 then 0 else 2 + Index(s) % 2
  {
    hide Index, Pow2;
    IndexBound(s);
    var i := Index(s);
    if i == NTREEBINS - 1 {
      Powers();
      QuotientUnique(s, Pow2(64), 0, s);
    } else {
      MinSizeUnits(i);
      hide MinSize;
      var d := Pow2(i / 2 + 7);
      if i % 2 == 0 {
        QuotientUnique(s, d, 2, s - 2 * d);
      } else {
        QuotientUnique(s, d, 3, s - 3 * d);
      }
    }
  }

  /** The index is right for every size below 2^40, and above exactly when enough of the
      32 bits that are kept are set. */
  lemma RightBinIff(size: nat)
    requires size >= MIN_LARGE_SIZE
    ensures RightBin(size) <==> size < 0x100_0000_0000 || (size / 256) % 0x1_0000_0000 >= 0xC000
  {
    if size < 0x100_0000 {
      SmallIndexRight(size);
    } else if size < 0x100_0000_0000 || (size / 256) % 0x1_0000_0000 > 0xFFFF {
      assert (size / 256) % 0x1_0000_0000 > 0xFFFF;
      LastBin();
    } else {
      HugeIndex(size);
    }
  }

  lemma MinSizes(k: nat)
    requires k < 16
    ensures MinSize(2 * k) == 2 * Pow2(k + 7) && MinSize(2 * k + 1) == 3 * Pow2(k + 7)
    ensures MinSize(2 * k + 2) == 4 * Pow2(k + 7)
  {
    hide Pow2, MinSize;
    MinSizeUnits(2 * k);
    MinSizeUnits(2 * k + 1);
    assert (2 * k) / 2 == k && (2 * k) % 2 == 0;
    assert (2 * k + 1) / 2 == k && (2 * k + 1) % 2 == 1;
  }

  lemma SmallIndexRight(size: nat)
    requires MIN_LARGE_SIZE <= size < 0x100_0000
    ensures RightBin(size)
  {
    hide Index, MinSize, Pow2, Log2;
    var k := IndexBits(size);
    MinSizes(k);
    IndexBound(size);
  }

  lemma LastBin()
    ensures MinSize(31) == 0xC0_0000
  {
    hide Pow2;
    Powers();
  }

  lemma HugeIndex(size: nat)
    requires size >= 0x100_0000_0000 && (size / 256) % 0x1_0000_0000 <= 0xFFFF
    ensures RightBin(size) <==> (size / 256) % 0x1_0000_0000 >= 0xC000
  {
    LastBin();
    IndexBound(size);
    HugeLast(size);
    hide Index, MinSize;
    if Index(size) < 31 {
      MinSizeOrder(Index(size) + 1, 31);
    }
  }

  lemma HugeLast(size: nat)
    requires size >= 0x100_0000_0000 && (size / 256) % 0x1_0000_0000 <= 0xFFFF
    ensures Index(size) == 31 <==> (size / 256) % 0x1_0000_0000 >= 0xC000
  {
    var x := (size / 256) % 0x1_0000_0000;
    if x > 0 {
      var k := Log2(x);
      HighBit(x);
      hide Pow2, Log2;
      if k == 15 {
        Powers();
        Bit22(size);
      }
    }
  }

  lemma HighBit(x: nat)
    requires 0 < x <= 0xFFFF
    ensures Log2(x) <= 15 && (Log2(x) == 15 <==> x >= 0x8000)
  {
    var k := Log2(x);
    hide Pow2, Log2;
    Powers();
    SmallPowers();
    Pow2Sum(1, 1);
    Pow2Sum(4, 2);
    Pow2Sum(6, 1);
    Pow2Sum(8, 7);
    if k >= 16 {
      Pow2Order(16, k);
    } else if k <= 14 {
      Pow2Order(k + 1, 15);
    }
  }

  lemma Bit22(size: nat)
    requires var x := (size / 256) % 0x1_0000_0000; 0x8000 <= x <= 0xFFFF
    ensures (size / 0x40_0000) % 2 == 1 <==> (size / 256) % 0x1_0000_0000 >= 0xC000
  {
    var y := size / 256;
    DivDiv(size, 256, 0x4000);
    Division(y, 0x1_0000_0000);
    Bit14(y, y / 0x1_0000_0000, y % 0x1_0000_0000);
  }

  lemma Bit14(y: nat, h: nat, x: nat)
    requires y == 0x1_0000_0000 * h + x && 0x8000 <= x <= 0xFFFF
    ensures (y / 0x4000) % 2 == 1 <==> x >= 0xC000
  {
    var z := if x >= 0xC000 then 3 else 2;
    QuotientUnique(y, 0x4000, 0x4_0000 * h + z, x - 0x4000 * z);
  }
}

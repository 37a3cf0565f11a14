/** Facts about multiplication and division the solver needs one at a time. */
module Arithmetic {

  lemma {:induction false} MulOrder(d: nat, a: nat, b: nat)
    ensures a < b ==> d * a + d <= d * b
    ensures a <= b ==> d * a <= d * b
    decreases b
  {
    if a < b {
      MulOrder(d, a, b - 1);
      assert d * b == d * (b - 1) + d;
    }
  }

  lemma QuotientUnique(x: nat, d: nat, q: nat, r: nat)
    requires d > 0 && x == d * q + r && r < d
    ensures x / d == q && x % d == r
  {
    MulOrder(d, x / d, q);
    MulOrder(d, q, x / d);
  }

  lemma MulAssoc(a: nat, b: nat, c: nat)
    ensures (a * b) * c == a * (b * c)
  {
  }

  lemma MulDistribute(a: nat, b: nat, c: nat)
    ensures a * (b + c) == a * b + a * c
  {
  }

  lemma DivDiv(x: nat, a: nat, b: nat)
    requires a > 0 && b > 0
    ensures a * b > 0
    ensures x / (a * b) == (x / a) / b
  {
    var q := x / a;
    var r := q / b;
    MulOrder(a, 0, b);
    Division(x, a);
    Division(q, b);
    Regroup(a, b, r, q % b, x % a);
    MulOrder(a, q % b, b);
    QuotientUnique(x, a * b, r, a * (q % b) + x % a);
  }

  lemma Division(x: nat, d: nat)
    requires d > 0
    ensures x == d * (x / d) + x % d && x % d < d
  {
  }

  lemma Regroup(a: nat, b: nat, r: nat, s: nat, t: nat)
    ensures a * (b * r + s) + t == (a * b) * r + (a * s + t)
  {
    MulDistribute(a, b * r, s);
    MulAssoc(a, b, r);
  }

  lemma ModMod(x: nat, d: nat, k: nat)
    requires d > 0 && k > 0
    ensures d * k > 0 && (x % (d * k)) % d == x % d
  {
    MulOrder(d, 0, k);
    var q, r := x / (d * k), x % (d * k);
    Division(x, d * k);
    Division(r, d);
    MulAssoc(d, k, q);
    MulDistribute(d, k * q, r / d);
    QuotientUnique(x, d, k * q + r / d, r % d);
  }

  /** Division, known to be natural. */
  function Quotient(x: nat, d: nat): (q: nat)
    requires d > 0
    ensures q == x / d
  {
    Division(x, d);
    x / d
  }
}

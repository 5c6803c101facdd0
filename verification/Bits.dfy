/** BigInt shifts and masks on non-negative integers, bit by bit. */
module Bits {

  function Pow2(k: nat): (p: nat)
    ensures p >= 1
  {
    if k == 0 then 1 else 2 * Pow2(k - 1)
  }

  function ShiftLeft(x: nat, k: nat): nat { x * Pow2(k) }

  lemma QuotientNat(x: nat, m: nat)
    requires m >= 1
    ensures x / m >= 0
  {
  }

  function ShiftRight(x: nat, k: nat): nat {
    QuotientNat(x, Pow2(k));
    x / Pow2(k)
  }

  function And(x: nat, y: nat): nat {
    if x == 0 || y == 0 then 0 else 2 * And(x / 2, y / 2) + (x % 2) * (y % 2)
  }

  function Or(x: nat, y: nat): nat {
    if x == 0 then y else if y == 0 then x
    else 2 * Or(x / 2, y / 2) + (if x % 2 == 1 || y % 2 == 1 then 1 else 0)
  }

  lemma {:induction false} PowAdd(a: nat, b: nat)
    ensures Pow2(a + b) == Pow2(a) * Pow2(b)
  {
    if a > 0 {
      PowAdd(a - 1, b);
      Regroup(Pow2(a - 1), Pow2(b));
    }
  }

  lemma {:induction false} PowMonotone(j: nat, k: nat)
    requires j <= k
    ensures Pow2(j) <= Pow2(k)
  {
    if j < k { PowMonotone(j, k - 1); }
  }

  lemma Regroup(p: nat, q: nat)
    ensures 2 * (p * q) == 2 * p * q
  {
  }

  /** A quotient and a remainder in range are the quotient and the remainder. */
  lemma DivUnique(x: nat, m: nat, q: nat, r: nat)
    requires m >= 1 && x == q * m + r && r < m
    ensures x / m == q && x % m == r
  {
    var d := x / m;
    assert x == m * d + x % m;
    if d < q { Gap(d, q, m); }
    if d > q { Gap(q, d, m); }
  }

  lemma {:induction false} Gap(a: nat, b: nat, m: nat)
    requires a < b
    ensures a * m + m <= b * m
  {
    OneMore(b - 1, m);
    if a < b - 1 { Gap(a, b - 1, m); }
  }

  lemma OneMore(a: nat, m: nat)
    ensures (a + 1) * m == a * m + m
  {
  }

  lemma Split(x: nat, m: nat)
    requires m >= 1
    ensures x == x / m * m + x % m
  {
  }

  /** Halving commutes with taking the low bits. */
  lemma HalfMod(x: nat, m: nat)
    requires m >= 1
    ensures x % (2 * m) == 2 * (x / 2 % m) + x % 2
    ensures x / (2 * m) == x / 2 / m
  {
    var q, r := x / 2 / m, x / 2 % m;
    Split(x / 2, m);
    assert x == 2 * (x / 2) + x % 2;
    assert q * (2 * m) == 2 * (q * m);
    DivUnique(x, 2 * m, q, 2 * r + x % 2);
  }

  lemma {:induction false} OrDisjoint(x: nat, k: nat, y: nat)
    requires y < Pow2(k)
    ensures Or(ShiftLeft(x, k), y) == ShiftLeft(x, k) + y
  {
    if k > 0 && x > 0 && y > 0 {
      OrDisjoint(x, k - 1, y / 2);
      var p := Pow2(k - 1);
      assert x * (2 * p) == 2 * (x * p);
      assert x * p >= 1 by { Positive(x, p); }
    } else if x == 0 {
      assert ShiftLeft(0, k) == 0;
    }
  }

  lemma Positive(a: nat, b: nat)
    requires a >= 1 && b >= 1
    ensures a * b >= 1
  {
  }

  lemma {:induction false} AndLow(x: nat, p: nat)
    ensures And(x, Pow2(p) - 1) == x % Pow2(p)
  {
    if p > 0 {
      var h := Pow2(p - 1);
      AndLow(x / 2, p - 1);
      HalfMod(x, h);
      assert (2 * h - 1) / 2 == h - 1 && (2 * h - 1) % 2 == 1;
    }
  }

  lemma AndEven(x: nat, w: nat)
    ensures And(x, 2 * w) == 2 * And(x / 2, w)
  {
    if x != 0 && w != 0 { assert 2 * w / 2 == w && 2 * w % 2 == 0; }
  }

  lemma ShiftOnce(x: nat, k: nat)
    requires k >= 1
    ensures ShiftLeft(x, k) == 2 * ShiftLeft(x, k - 1)
  {
    var h := Pow2(k - 1);
    assert x * (2 * h) == 2 * (x * h);
  }

  /** A mask of p ones above k zeros keeps bits k to k + p - 1. */
  lemma {:induction false} AndMask(x: nat, p: nat, k: nat)
    ensures And(x, ShiftLeft(Pow2(p) - 1, k)) == ShiftLeft(ShiftRight(x, k) % Pow2(p), k)
  {
    if k == 0 {
      AndLow(x, p);
    } else {
      ShiftOnce(Pow2(p) - 1, k);
      AndEven(x, ShiftLeft(Pow2(p) - 1, k - 1));
      AndMask(x / 2, p, k - 1);
      HalfMod(x, Pow2(k - 1));
      ShiftOnce(ShiftRight(x, k) % Pow2(p), k);
    }
  }
}

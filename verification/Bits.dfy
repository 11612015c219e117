/** Powers, and bitwise operations on naturals. */
module Bits {

  function Pow(b: nat, n: nat): (r: nat)
    ensures b > 0 ==> r > 0
  {
    if n == 0 then 1 else Positive(b, Pow(b, n - 1)); b * Pow(b, n - 1)
  }

  lemma Positive(x: nat, y: nat)
    ensures x * y >= 0
    ensures x > 0 && y > 0 ==> x * y > 0
  {
  }

  function Pow2(n: nat): (r: nat)
    ensures r > 0
  {
    if n == 0 then 1 else 2 * Pow2(n - 1)
  }

  lemma {:induction false} PowAdd(b: nat, m: nat, n: nat)
    ensures Pow(b, m + n) == Pow(b, m) * Pow(b, n)
  {
    if m > 0 {
      PowAdd(b, m - 1, n);
      MulAssoc(b, Pow(b, m - 1), Pow(b, n));
      assert m + n - 1 == (m - 1) + n;
    }
  }

  lemma {:induction false} Pow2Add(m: nat, n: nat)
    ensures Pow2(m + n) == Pow2(m) * Pow2(n)
  {
    if m > 0 {
      Pow2Add(m - 1, n);
      MulAssoc(2, Pow2(m - 1), Pow2(n));
      assert m + n - 1 == (m - 1) + n;
    }
  }

  lemma {:induction false} Pow2Le(m: nat, n: nat)
    requires m <= n
    ensures Pow2(m) <= Pow2(n)
  {
    if m < n { Pow2Le(m, n - 1); }
  }

  lemma MulAssoc(x: int, y: int, z: int)
    ensures (x * y) * z == x * (y * z)
  {
  }

  lemma MulDist(x: int, y: int, z: int)
    ensures (x + y) * z == x * z + y * z
  {
  }

  lemma MulLe(x: int, y: int, z: int)
    requires x <= y && 0 <= z
    ensures x * z <= y * z
  {
  }

  lemma MulLt(x: int, y: int, z: int)
    requires x < y && 0 < z
    ensures x * z < y * z
  {
  }

  /** Division with remainder is unique. */
  lemma DivUnique(x: int, m: int, q: int, r: int)
    requires 0 < m && 0 <= r < m && x == q * m + r
    ensures x / m == q && x % m == r
  {
    var k := x / m - q;
    assert x == (x / m) * m + x % m;
    MulDist(q, k, m);
    assert (x / m) * m == q * m + k * m;
    assert k * m == r - x % m;
    if k >= 1 { MulLe(1, k, m); } else if k <= -1 { MulLe(k, -1, m); }
  }

  function BitOr(x: nat, y: nat): nat {
    if x == 0 then y
    else if y == 0 then x
    else (if x % 2 == 1 || y % 2 == 1 then 1 else 0) + 2 * BitOr(x / 2, y / 2)
  }

  function BitAnd(x: nat, y: nat): nat {
    if x == 0 || y == 0 then 0
    else (if x % 2 == 1 && y % 2 == 1 then 1 else 0) + 2 * BitAnd(x / 2, y / 2)
  }

  predicate TestBit(x: nat, n: nat) { (x / Pow2(n)) % 2 == 1 }

  /** Or-ing numbers with no bits in common adds them. */
  lemma {:induction false} OrDisjoint(x: nat, y: nat, s: nat)
    requires x < Pow2(s) && y % Pow2(s) == 0
    ensures BitOr(x, y) == x + y && BitOr(y, x) == x + y
  {
    if s > 0 && x > 0 && y > 0 {
      var p := Pow2(s - 1);
      var q := y / (2 * p);
      assert y == q * (2 * p);
      assert y == 2 * (q * p) by { MulAssoc(q, 2, p); MulAssoc(2, q, p); }
      DivUnique(y / 2, p, q, 0);
      OrDisjoint(x / 2, y / 2, s - 1);
    }
  }
}

/** Numbers written as sequences of 32-bit words, least significant first. */
module Limbs {
  import opened Bits

  const B := 0x1_0000_0000
  const WIDTH := 8

  type word = x: nat | x < 0x1_0000_0000

  /** The weight of the word at position n. */
  function BPow(n: nat): (r: nat)
    ensures r > 0
  {
    if n == 0 then 1 else 0x1_0000_0000 * BPow(n - 1)
  }

  /** A word in position n: d times the weight of that position. */
  function Place(d: nat, n: nat): (r: nat) {
    if d == 0 then 0 else BPow(n) + Place(d - 1, n)
  }

  lemma {:induction false} PlaceIs(d: nat, n: nat)
    ensures Place(d, n) == d * BPow(n)
  {
    if d > 0 {
      PlaceIs(d - 1, n);
      MulDist(d - 1, 1, BPow(n));
    }
  }

  function Val(s: seq<word>): (r: nat) {
    if s == [] then 0 else Val(s[..|s| - 1]) + Place(s[|s| - 1], |s| - 1)
  }

  /** 2 to the power 256. */
  function Modulus(): (m: nat)
    ensures m > 0
  {
    BPow(WIDTH)
  }

  predicate Rest(x: int, r: int, q: int) { x == r + q * Modulus() }

  /** What is left of a number in 256 bits. */
  ghost function Wrap(x: int): (r: nat)
    ensures r < Modulus()
  {
    RestExists(x);
    var r: nat :| r < Modulus() && exists q :: Rest(x, r, q);
    r
  }

  lemma RestExists(x: int)
    ensures Rest(x, x % Modulus(), x / Modulus())
  {
  }

  lemma WrapIs(x: int)
    ensures Wrap(x) == x % Modulus()
  {
    var q :| Rest(x, Wrap(x), q);
    DivUnique(x, Modulus(), q, Wrap(x));
  }

  lemma ValPrefix(s: seq<word>, i: nat)
    requires i < |s|
    ensures Val(s[..i + 1]) == Val(s[..i]) + s[i] * BPow(i)
  {
    assert s[..i + 1][..i] == s[..i];
    PlaceIs(s[i], i);
  }

  lemma ValSnoc(s: seq<word>, w: word)
    ensures Val(s + [w]) == Val(s) + w * BPow(|s|)
  {
    assert (s + [w])[..|s|] == s;
    PlaceIs(w, |s|);
  }

  lemma {:induction false} ValBound(s: seq<word>)
    ensures Val(s) < BPow(|s|)
  {
    if s != [] {
      var n := |s| - 1;
      ValBound(s[..n]);
      PlaceIs(s[n], n);
      var top: int := s[n];
      MulLe(top + 1, B, BPow(n));
      MulDist(top, 1, BPow(n));
    }
  }

  lemma {:induction false} ValSet(s: seq<word>, i: nat, x: word)
    requires i < |s|
    ensures Val(s[i := x]) == Val(s) + (x - s[i]) * BPow(i)
  {
    var n := |s| - 1;
    if i == n {
      assert s[i := x][..n] == s[..n];
      PlaceIs(s[n], n);
      PlaceIs(x, n);
      MulDist(x - s[i], s[i], BPow(i));
    } else {
      ValSet(s[..n], i, x);
      assert s[i := x][..n] == s[..n][i := x];
    }
  }

  lemma ValAdd(s: seq<word>, i: nat, d: nat)
    requires i < |s| && s[i] + d < B
    ensures Val(s[i := s[i] + d]) == Val(s) + d * BPow(i)
  {
    ValSet(s, i, s[i] + d);
  }

  lemma {:induction false} ValSplit(s: seq<word>, i: nat)
    requires i <= |s|
    ensures Val(s) == Val(s[..i]) + Val(s[i..]) * BPow(i)
  {
    var n := |s| - 1;
    if i == |s| {
      assert s[..i] == s;
    } else {
      ValSplit(s[..n], i);
      assert s[..n][..i] == s[..i] && s[..n][i..] == s[i..][..n - i];
      BPowAdd(n - i, i);
      MulAssoc(s[n], BPow(n - i), BPow(i));
      MulDist(Val(s[i..n]), s[n] * BPow(n - i), BPow(i));
      assert s[i..][..n - i] == s[i..n];
      PlaceIs(s[n], n);
      PlaceIs(s[n], n - i);
      assert Val(s[i..]) == Val(s[i..n]) + s[n] * BPow(n - i);
    }
  }

  lemma {:induction false} ValZeros(s: seq<word>)
    ensures (forall k :: 0 <= k < |s| ==> s[k] == 0) <==> Val(s) == 0
  {
    if s != [] {
      var n := |s| - 1;
      ValZeros(s[..n]);
      PlaceIs(s[n], n);
      Positive(s[n], BPow(n));
    }
  }

  /** Two numbers of the same length compare as their highest differing word. */
  lemma ValLess(s: seq<word>, t: seq<word>, i: nat)
    requires |s| == |t| && i < |s| && s[i] < t[i] && s[i + 1..] == t[i + 1..]
    ensures Val(s) < Val(t)
  {
    ValSplit(s, i + 1);
    ValSplit(t, i + 1);
    ValPrefix(s, i);
    ValPrefix(t, i);
    ValBound(s[..i]);
    TopDecides(Val(s[..i]), Val(t[..i]), s[i], t[i], BPow(i));
  }

  lemma TopDecides(a: nat, b: nat, low: nat, high: nat, p: nat)
    requires a < p && low < high
    ensures a + low * p < b + high * p
  {
    MulLe(low + 1, high, p);
    MulDist(low, 1, p);
  }

  lemma {:induction false} WordPow(n: nat)
    ensures BPow(n) == Pow2(32 * n)
  {
    if n > 0 {
      WordPow(n - 1);
      Pow2Add(32, 32 * (n - 1));
      Pow32();
    }
  }

  lemma {:induction false} BPowAdd(m: nat, n: nat)
    ensures BPow(m + n) == BPow(m) * BPow(n)
  {
    if m > 0 {
      BPowAdd(m - 1, n);
      MulAssoc(B, BPow(m - 1), BPow(n));
      assert m + n - 1 == (m - 1) + n;
    }
  }

  lemma Pow32()
    ensures Pow2(32) == B
  {
    Pow2Add(8, 8);
    Pow2Add(16, 16);
    assert Pow2(8) == 256;
  }

  /** A value known up to multiples of 2^256 is known, once it is below 2^256. */
  lemma Reduced(x: int, v: nat, q: int)
    requires x == v + q * Modulus() && v < Modulus()
    ensures Wrap(x) == v
  {
    WrapIs(x);
    DivUnique(x, Modulus(), q, v);
  }
}

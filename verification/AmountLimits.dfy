/** Which 64-bit amounts survive compression, exactly.  A compact form that wraps would have to
    stand for the amount it wrapped from.  It is odd, so that its exponent is even; that fixes its
    mantissa modulo 2^64, and none of the candidates left has the last digit it would need. */
module AmountLimits {
  import opened Bits
  import opened Wrappers
  import opened Serial
  import opened CoinsData
  import opened Compressor

  /** A multiple of ten never overflows; any other amount is compacted by its last digit alone. */
  lemma CompactSize(n: nat)
    requires n < WRAP64
    ensures n % 10 == 0 ==> CompactAmount(n) < WRAP64
    ensures n % 10 != 0 ==> CompactAmount(n) == 9 * n + n % 10 - 9
  {
    if n % 10 != 0 {
      assert Reduce(n, 0) == Scaled(n, 0);
    } else if n > 0 {
      ReduceIs(n, 0);
      ReduceIs(n / 10, 1);
    }
  }

  // ---------------------------------------------------------------- the mantissa of a wrapped form

  /** A factor with an inverse can be divided out. */
  lemma Root(a: int, m: int, c: int, q: int, g: int, j: int, w: int) returns (k: int)
    requires a * m == q * w + c && a * g == j * w + 1
    ensures m == c * g - k * w
  {
    k := m * j - q * g;
    assert (a * m) * g == m * (a * g) by { Swap(a, m, g); }
    assert (a * m) * g == (q * w) * g + c * g by { MulDist(q * w, c, g); }
    assert m * (j * w + 1) == (m * j) * w + m by { MulAssoc(m, j, w); }
    assert (q * w) * g == (q * g) * w by { Swap(q, w, g); MulAssoc(w, q, g); }
    assert k * w == (m * j) * w - (q * g) * w by { MulDist(m * j, 0 - q * g, w); }
  }

  lemma Swap(x: int, y: int, z: int)
    ensures (x * y) * z == y * (x * z) == (x * z) * y
  {
    MulAssoc(y, x, z);
  }

  /** The mantissas m, below the bound for exponent e, that 9 * (10^e - 1) takes to c. */
  predicate Candidate(e: nat, c: int, m: int) {
    || (e == 2 && ((c == -8 && m == 1035170823440491112) || (c == -4 && m == 517585411720245556)))
    || (e == 4 && ((c == 7 && m == 219333223976500097) || (c == 14 && m == 438666447953000194)))
    || (e == 6 && ((c == 3 && m == 557418120922784917) || (c == 6 && m == 1114836241845569834) ||
                   (c == 9 && m == 1672254362768354751)))
    || (e == 8 && ((c == -1 && m == 2016287890051016505) || (c == 9 && m == 300153063250403071)))
  }

  lemma Candidates2(c: int, m: int, k: int)
    requires -8 <= c <= 16 && m == c * 13705661702352102323 - k * WRAP64 && 0 < m && 9 * m < WRAP64 + 9
    ensures Candidate(2, c, m)
  {
    if c < 4 { } else if c < 10 { } else { }
  }

  lemma Candidates4(c: int, m: int, k: int)
    requires -8 <= c <= 16 && m == c * 15842828238033401399 - k * WRAP64 && 0 < m && 9 * m < WRAP64 + 9
    ensures Candidate(4, c, m)
  {
    if c < 4 { } else if c < 10 { } else { }
  }

  lemma Candidates6(c: int, m: int, k: int)
    requires -8 <= c <= 16 && m == c * 12483635422780629383 - k * WRAP64 && 0 < m && 9 * m < WRAP64 + 9
    ensures Candidate(6, c, m)
  {
    if c < 4 { } else if c < 10 { } else { }
  }

  lemma Candidates8(c: int, m: int, k: int)
    requires -8 <= c <= 16 && m == c * 16430456183658535111 - k * WRAP64 && 0 < m && 9 * m < WRAP64 + 9
    ensures Candidate(8, c, m)
  {
    if c < 4 { } else if c < 10 { } else { }
  }

  lemma Candidates(e: nat, c: int, m: int, q: int)
    requires 0 < e < 9 && e % 2 == 0 && -8 <= c <= 16 && 0 < m && 9 * m < WRAP64 + 9
    ensures 9 * (Tens(e) - 1) * m == q * WRAP64 + c ==> Candidate(e, c, m)
  {
    if 9 * (Tens(e) - 1) * m == q * WRAP64 + c {
      if e == 2 {
        var k := Root(891, m, c, q, 13705661702352102323, 662, WRAP64);
        Candidates2(c, m, k);
      } else if e == 4 {
        var k := Root(89991, m, c, q, 15842828238033401399, 77288, WRAP64);
        Candidates4(c, m, k);
      } else if e == 6 {
        var k := Root(8999991, m, c, q, 12483635422780629383, 6090647, WRAP64);
        Candidates6(c, m, k);
      } else {
        var k := Root(899999991, m, c, q, 16430456183658535111, 801627125, WRAP64);
        Candidates8(c, m, k);
      }
    }
  }

  /** 10^e, for exponents of amounts. */
  function Tens(e: nat): nat {
    if e == 0 then 1 else if e == 1 then 10 else if e == 2 then 100 else if e == 3 then 1000 else if e == 4 then 1_0000
    else if e == 5 then 10_0000 else if e == 6 then 100_0000 else if e == 7 then 1000_0000
    else if e == 8 then 1_0000_0000
    else 10_0000_0000
  }

  lemma {:induction false} ScaleTens(m: nat, e: nat)
    requires e <= 9
    ensures Scale(m, e) == Tens(e) * m
  {
    if e > 0 { ScaleTens(m, e - 1); }
  }

  /** Each candidate stands for amounts that end in another digit than they should. */
  lemma WrongDigit2(c: int, m: int, r: int, t: int)
    requires Candidate(2, c, m) && r == 100 * m - t * WRAP64 && 0 <= r < WRAP64
    ensures r % 10 != m % 10 + 2 - c
  {
    assert c == -8 ==> r == 11283361975501353120;
    assert c == -4 ==> r == 14865053024605452368;
  }

  lemma WrongDigit4(c: int, m: int, r: int, t: int)
    requires Candidate(4, c, m) && r == 10000 * m - t * WRAP64 && 0 <= r < WRAP64
    ensures r % 10 != m % 10 + 4 - c
  {
    assert c == 7 ==> r == 16616439067273879312;
    assert c == 14 ==> r == 14786134060838207008;
  }

  lemma WrongDigit6(c: int, m: int, r: int, t: int)
    requires Candidate(6, c, m) && r == 1000000 * m - t * WRAP64 && 0 <= r < WRAP64
    ensures r % 10 != m % 10 + 6 - c
  {
    assert c == 3 ==> r == 12855247503395819328;
    assert c == 6 ==> r == 7263750933082087040;
    assert c == 9 ==> r == 1672254362768354752;
  }

  lemma WrongDigit8(c: int, m: int, r: int, t: int)
    requires Candidate(8, c, m) && r == 100000000 * m - t * WRAP64 && 0 <= r < WRAP64
    ensures r % 10 != m % 10 + 8 - c
  {
    assert c == -1 ==> r == 10214840811699706112;
    assert c == 9 ==> r == 300153063250403072;
  }

  lemma WrongDigit(e: nat, c: int, m: int, r: int, t: int)
    requires 0 < e < 9 && e % 2 == 0 && r == Tens(e) * m - t * WRAP64 && 0 <= r < WRAP64
    ensures Candidate(e, c, m) ==> r % 10 != m % 10 + e - c
  {
    if Candidate(e, c, m) {
      if e == 2 { WrongDigit2(c, m, r, t); }
      else if e == 4 { WrongDigit4(c, m, r, t); }
      else if e == 6 { WrongDigit6(c, m, r, t); }
      else { WrongDigit8(c, m, r, t); }
    }
  }

  /** n has the compact form x + k * 2^64, and x stands for r modulo 2^64. */
  ghost predicate Wraps(n: nat, x: nat, k: nat, r: nat) {
    n % 10 != 0 && 9 * n + n % 10 - 9 == x + k * WRAP64 && x < WRAP64 && k > 0 && n < WRAP64 && r < WRAP64
  }

  /** With exponent 0 a form stands for itself. */
  lemma NoExponent(n: nat, m: nat, x: nat, k: nat, r: nat)
    requires Wraps(n, x, k, r) && m % 10 != 0 && x == 9 * m + m % 10 - 9 && r == m
    ensures r != n
  {
  }

  lemma DigitSum(m: nat) returns (h: nat)
    ensures 9 * m + m % 10 == 2 * h
  {
    var q, d := m / 10, m % 10;
    assert m == 10 * q + d;
    h := 45 * q + 5 * d;
  }

  /** What has wrapped is odd, which leaves only even exponents. */
  lemma WrappedIsOdd(n: nat, x: nat, k: nat, r: nat)
    ensures Wraps(n, x, k, r) ==> x % 2 == 1
  {
    var h := DigitSum(n);
    if Wraps(n, x, k, r) { assert x == 2 * (h - 5 - k * (WRAP64 / 2)) + 1; }
  }

  lemma OddExponent(m: nat, x: nat, e: nat)
    requires x == 9 * m + m % 10 - 9 + e && e % 2 == 1
    ensures x % 2 == 0
  {
    var h := DigitSum(m);
    assert x == 2 * (h - 4 + e / 2);
  }

  lemma SmallExponent(n: nat, e: nat, m: nat, x: nat, k: nat, t: nat, r: nat)
    requires 1 <= e <= 8 && m % 10 != 0 && x == 9 * m + m % 10 - 9 + e && r == Tens(e) * m - t * WRAP64
    ensures Wraps(n, x, k, r) ==> r != n
  {
    WrappedIsOdd(n, x, k, r);
    if e % 2 == 1 {
      OddExponent(m, x, e);
    } else if Wraps(n, x, k, r) {
      var c := m % 10 + e - n % 10;
      Less(e, m);
      Candidates(e, c, m, 9 * t + k);
      WrongDigit(e, c, m, r, t);
    }
  }

  lemma Less(e: nat, m: nat)
    ensures 9 * (Tens(e) - 1) * m == 9 * (Tens(e) * m) - 9 * m
  {
    MulDist(Tens(e), 0 - 1, m);
    MulAssoc(9, Tens(e) - 1, m);
  }

  lemma LargeExponent(n: nat, m: nat, x: nat, k: nat, r: nat)
    requires x == 10 * m
    ensures !Wraps(n, x, k, r)
  {
    WrappedIsOdd(n, x, k, r);
  }

  /** A compact form that wraps does not come back. */
  lemma Wrapped(n: nat, x: nat, k: nat)
    requires n < WRAP64 && n % 10 != 0 && 9 * n + n % 10 - 9 == x + k * WRAP64 && x < WRAP64 && k > 0
    ensures ExpandAmount(x) % WRAP64 != n
  {
    if x > 0 {
      CompactExpand(x);
      var s := Expand(x);
      var t, r := ExpandAmount(x) / WRAP64, ExpandAmount(x) % WRAP64;
      ScaleTens(s.m, s.e);
      if s.e == 0 {
        NoExponent(n, s.m, x, k, r);
      } else if s.e < 9 {
        SmallExponent(n, s.e, s.m, x, k, t, r);
      } else {
        LargeExponent(n, s.m, x, k, r);
      }
    }
  }

  // ---------------------------------------------------------------- the exact limits

  /** A multiple of ten, or a number whose compact form fits. */
  predicate Survives(n: nat) { n % 10 == 0 || 9 * n + n % 10 - 9 < WRAP64 }

  /** The 64-bit functions give an amount back if and only if it is one of these. */
  lemma AmountComesBack(n: nat)
    requires n < WRAP64
    ensures ExpandAmount(CompactAmount(n) % WRAP64) % WRAP64 == n <==> Survives(n)
  {
    CompactSize(n);
    if CompactAmount(n) < WRAP64 {
      AmountRoundTrip(n);
    } else {
      Wrapped(n, CompactAmount(n) % WRAP64, CompactAmount(n) / WRAP64);
    }
  }

  /** So does an output its signed amount. */
  lemma SignedComesBack(n: int)
    requires -0x8000_0000_0000_0000 <= n < 0x8000_0000_0000_0000
    ensures AmountBack(n) == n <==> Survives(Unsigned64(n))
    ensures 0 <= n <= MAX_MONEY ==> Survives(Unsigned64(n))
  {
    var u := Unsigned64(n);
    AmountComesBack(u);
    if n >= 0 { Fits64(n); } else { DivUnique(n, WRAP64, -1, n + WRAP64); }
  }

  /** Reading a written output gives it back if and only if its amount survives, as every valid amount
      does. */
  lemma OutComesBack(o: TxOut, rest: seq<byte>, c: Curve)
    requires Lawful(c) && Encodable(o)
    ensures ParseTxOut(EncodeTxOut(o, c) + rest, c) == Got(o, rest) <==> Survives(Unsigned64(o.nValue))
    ensures 0 <= o.nValue <= MAX_MONEY ==> Survives(Unsigned64(o.nValue))
  {
    TxOutRoundTrip(o, rest, c);
    SignedComesBack(o.nValue);
  }

  /** And they give a compact form back if and only if its mantissa is not too large for its exponent. */
  lemma CompactComesBack(x: nat)
    requires x < WRAP64
    ensures CompactAmount(ExpandAmount(x) % WRAP64) % WRAP64 == x <==>
            x == 0 || Expand(x).m <= (WRAP64 - 1) / Tens(Expand(x).e)
  {
    if x > 0 {
      ScaleTens(Expand(x).m, Expand(x).e);
      Fits(Expand(x).m, Tens(Expand(x).e));
      if ExpandAmount(x) < WRAP64 {
        CompactRoundTrip(x);
      } else {
        NotCompactOf(x, ExpandAmount(x) % WRAP64);
      }
    }
  }

  lemma Fits(m: nat, p: nat)
    requires p > 0
    ensures p * m < WRAP64 <==> m <= (WRAP64 - 1) / p
  {
    var q := (WRAP64 - 1) / p;
    assert q * p <= WRAP64 - 1 < (q + 1) * p;
    if m <= q { MulLe(m, q, p); } else { MulLe(q + 1, m, p); }
  }

  lemma NotCompactOf(x: nat, n: nat)
    requires x < WRAP64 <= ExpandAmount(x) && n == ExpandAmount(x) % WRAP64
    ensures CompactAmount(n) % WRAP64 != x
  {
    CompactSize(n);
    AmountsMatch(n, x);
    var c := CompactAmount(n);
    if c >= WRAP64 {
      Wrapped(n, c % WRAP64, c / WRAP64);
    } else {
      Fits64(c);
    }
  }
}

/** The heights that skip links lead to, and how many links a search along them follows: at most
    quadratic in the number of binary digits of the distance. */
module ChainSkips {
  import opened Bits

  // ---- how far to skip ----

  /** Turn the lowest 1 bit of a number into a 0. */
  function InvertLowestOne(n: nat): nat { if n == 0 then 0 else BitAnd(n, n - 1) }

  function GetSkipHeight(height: nat): nat {
    if height < 2 then 0
    else if height % 2 == 1 then InvertLowestOne(InvertLowestOne(height - 1)) + 1
    else InvertLowestOne(height)
  }

  lemma {:induction false} AndBelow(x: nat, y: nat)
    ensures BitAnd(x, y) <= y
  {
    if x > 0 && y > 0 { AndBelow(x / 2, y / 2); }
  }

  /** The lowest 1 bit is the one cleared, and no other. */
  lemma {:induction false} LowestOneCleared(k: nat, j: nat)
    ensures InvertLowestOne((2 * k + 1) * Pow2(j)) == 2 * k * Pow2(j)
  {
    var n := (2 * k + 1) * Pow2(j);
    if j == 0 {
      AndWithEven(k);
    } else {
      LowestOneCleared(k, j - 1);
      var h := (2 * k + 1) * Pow2(j - 1);
      Positive(2 * k + 1, Pow2(j - 1));
      assert n == 2 * h by { MulAssoc(2 * k + 1, 2, Pow2(j - 1)); MulAssoc(2, 2 * k + 1, Pow2(j - 1)); }
      assert 2 * k * Pow2(j) == 2 * (2 * k * Pow2(j - 1)) by {
        MulAssoc(2 * k, 2, Pow2(j - 1));
        MulAssoc(2, 2 * k, Pow2(j - 1));
      }
      assert n / 2 == h && (n - 1) / 2 == h - 1;
    }
  }

  lemma AndWithEven(k: nat)
    ensures BitAnd(2 * k + 1, 2 * k) == 2 * k
  {
    AndSame(k);
    assert (2 * k + 1) / 2 == k && 2 * k / 2 == k;
  }

  lemma {:induction false} AndSame(x: nat)
    ensures BitAnd(x, x) == x
  {
    if x > 0 { AndSame(x / 2); }
  }

  lemma SkipsBack(n: nat)
    requires n >= 1
    ensures GetSkipHeight(n) < n
  {
    if n >= 2 {
      AndBelow(n, n - 1);
      AndBelow(n - 1, n - 2);
      var m := InvertLowestOne(n - 1);
      if m > 0 { AndBelow(m, m - 1); }
    }
  }

  /** The skip heights: an even height loses its lowest 1 bit; an odd one loses the two lowest but the last. */
  lemma SkipHeights(k: nat, j: nat, m: nat, i: nat)
    ensures GetSkipHeight(0) == 0 && GetSkipHeight(1) == 0
    ensures j > 0 ==> GetSkipHeight((2 * k + 1) * Pow2(j)) == 2 * k * Pow2(j)
    ensures j > 0 ==> GetSkipHeight(Pow2(j) + 1) == 1
    ensures 0 < j < i ==> GetSkipHeight((2 * m + 1) * Pow2(i) + Pow2(j) + 1) == 2 * m * Pow2(i) + 1
  {
    if j > 0 {
      var a := OneBit(k, j, (2 * k + 1) * Pow2(j));
      var b := OneBit(0, j, Pow2(j));
      OddSkip(Pow2(j), b, 0);
      if j < i {
        var c := (2 * m + 1) * Pow2(i);
        var d := OneBit(m, i, c);
        var n := TwoBits(m, i, j, c);
        OddSkip(n, c, d);
      }
    }
  }

  lemma OddSkip(n: nat, c: nat, d: nat)
    requires n >= 2 && n % 2 == 0 && InvertLowestOne(n) == c && InvertLowestOne(c) == d
    ensures GetSkipHeight(n + 1) == d + 1
  {
  }

  lemma OneBit(k: nat, j: nat, n: nat) returns (rest: nat)
    requires j > 0 && n == (2 * k + 1) * Pow2(j)
    ensures rest == 2 * k * Pow2(j) && (k == 0 ==> rest == 0) && InvertLowestOne(n) == rest
    ensures n >= 2 && n % 2 == 0
  {
    Positive(2 * k, Pow2(j));
    rest := 2 * k * Pow2(j);
    LowestOneCleared(k, j);
    EvenSum(k, j);
  }

  lemma TwoBits(m: nat, i: nat, j: nat, c: nat) returns (n: nat)
    requires 0 < j < i && c == (2 * m + 1) * Pow2(i)
    ensures n == c + Pow2(j) && n >= 2 && n % 2 == 0 && InvertLowestOne(n) == c
  {
    var q := Aligned(m, i, j, c);
    n := c + Pow2(j);
    assert n == (2 * q + 1) * Pow2(j) by { MulDist(2 * q, 1, Pow2(j)); }
    var rest := OneBit(q, j, n);
  }

  lemma Aligned(m: nat, i: nat, j: nat, c: nat) returns (q: nat)
    requires j < i && c == (2 * m + 1) * Pow2(i)
    ensures c == 2 * q * Pow2(j)
  {
    var p, r := Pow2(j), Pow2(i - j - 1);
    Positive(2 * m + 1, r);
    q := (2 * m + 1) * r;
    Pow2Add(i - j, j);
    assert Pow2(i) == 2 * r * p;
    MulAssoc(2 * m + 1, 2 * r, p);
    MulAssoc(2 * m + 1, 2, r);
    MulAssoc(2, 2 * m + 1, r);
  }

  lemma EvenSum(q: nat, j: nat)
    requires j > 0
    ensures (2 * q + 1) * Pow2(j) % 2 == 0 && (2 * q + 1) * Pow2(j) >= 2
  {
    MulAssoc(2 * q + 1, 2, Pow2(j - 1));
    MulAssoc(2, 2 * q + 1, Pow2(j - 1));
    Positive(2 * q + 1, Pow2(j - 1));
    assert (2 * q + 1) * Pow2(j) == 2 * ((2 * q + 1) * Pow2(j - 1));
  }

  // ---- the lowest 1 bit ----

  function Clear(x: nat): (r: nat)
    ensures r <= x && r % 2 == 0 && (x > 0 ==> r < x)
  {
    if x == 0 then 0 else if x % 2 == 1 then x - 1 else 2 * Clear(x / 2)
  }

  lemma {:induction false} ClearIs(x: nat)
    ensures InvertLowestOne(x) == Clear(x)
  {
    if x > 0 {
      if x % 2 == 1 {
        AndWithEven(x / 2);
      } else {
        ClearIs(x / 2);
        assert (x - 1) / 2 == x / 2 - 1;
      }
    }
  }

  /** The skip heights, by parity. */
  function Skip(w: nat): (r: nat)
    ensures w > 0 ==> r < w
  {
    if w < 2 then 0 else if w % 2 == 1 then Clear(Clear(w - 1)) + 1 else Clear(w)
  }

  lemma {:induction false} SkipIs(w: nat)
    ensures GetSkipHeight(w) == Skip(w)
  {
    if w >= 2 {
      ClearIs(w);
      ClearIs(w - 1);
      ClearIs(Clear(w - 1));
    }
  }

  // ---- the links followed ----

  /** Where the search for the block at height h goes from height w, when the skip links are set. */
  function StepTo(w: nat, h: nat): (r: nat)
    requires h < w
    ensures h <= r < w
  {
    if Skip(w) == h || (Skip(w) > h && !(Skip(w - 1) < Skip(w) - 2 && Skip(w - 1) >= h)) then Skip(w) else w - 1
  }

  /** The number of links from height w down to h. */
  function Links(w: nat, h: nat): nat
    requires h <= w
    decreases w
  {
    if w == h then 0 else 1 + Links(StepTo(w, h), h)
  }

  // ---- powers of two below a height ----

  /** x is a multiple of 2^t. */
  predicate Mult(x: nat, t: nat) { t == 0 || (x % 2 == 0 && Mult(x / 2, t - 1)) }

  lemma {:induction false} MultLe(x: nat, s: nat, t: nat)
    requires Mult(x, t) && s <= t
    ensures Mult(x, s)
    decreases t
  {
    if s > 0 { MultLe(x / 2, s - 1, t - 1); }
  }

  lemma {:induction false} MultAtLeast(x: nat, t: nat)
    requires Mult(x, t) && x > 0
    ensures x >= Pow2(t)
  {
    if t > 0 { MultAtLeast(x / 2, t - 1); }
  }

  /** Clearing goes to a multiple of the next power, at least as far below as the power. */
  lemma {:induction false} ClearMult(x: nat, t: nat, next: nat)
    requires Mult(x, t) && next == t + 1
    ensures Mult(Clear(x), next) && (x > 0 ==> Clear(x) + Pow2(t) <= x)
  {
    if t > 0 && x > 0 { ClearMult(x / 2, t - 1, t); }
  }

  /** And if it is no multiple of the next power itself, exactly as far. */
  lemma {:induction false} ClearExact(x: nat, t: nat, next: nat)
    requires Mult(x, t) && next == t + 1 && !Mult(x, next)
    ensures x >= Pow2(t) && Clear(x) == x - Pow2(t)
  {
    if t > 0 { ClearExact(x / 2, t - 1, t); }
  }

  /** Below a multiple of 2^(e+1), the lowest bit of what is 2^e less is that. */
  lemma {:induction false} BelowMult(q: nat, e: nat, next: nat)
    requires next == e + 1 && Mult(q, next) && q > 0
    ensures q >= Pow2(next) == 2 * Pow2(e) && Mult(q - Pow2(e), e) && !Mult(q - Pow2(e), next)
    ensures Clear(q - Pow2(e)) == q - Pow2(next)
  {
    MultAtLeast(q, next);
    if e > 0 {
      BelowMult(q / 2, e - 1, e);
      assert (q - Pow2(e)) / 2 == q / 2 - Pow2(e - 1);
    }
  }

  // ---- a few links ----

  /** The even part of a height. */
  function Even(w: nat): nat { w - w % 2 }

  lemma {:induction false} SkipOdd(w: nat, x: nat, y: nat, z: nat)
    requires x >= 2 && x % 2 == 0 && w == x + 1 && y == Clear(x) && z == Clear(y)
    ensures Skip(w) == z + 1 && Skip(x) == y && z <= y
  {
  }

  lemma {:induction false} StepOdd(w: nat, x: nat, y: nat, z: nat, h: nat)
    requires w == x + 1 && Skip(w) == z + 1 && Skip(x) == y && z <= y && h < w
    ensures StepTo(w, h) == if z + 1 >= h then z + 1 else x
  {
  }

  /** From an odd height the skip is taken whenever it does not lead too far. */
  lemma {:induction false} OddAt(w: nat, x: nat, y: nat, z: nat, h: nat)
    requires x >= 2 && x % 2 == 0 && w == x + 1 && y == Clear(x) && z == Clear(y) && h < w
    ensures StepTo(w, h) == if z + 1 >= h then z + 1 else x
  {
    SkipOdd(w, x, y, z);
    StepOdd(w, x, y, z, h);
  }

  lemma {:induction false} OddStep(w: nat, h: nat)
    requires w % 2 == 1 && h < w && w >= 3
    ensures var s := Clear(Clear(w - 1)) + 1; StepTo(w, h) == if s >= h then s else w - 1
  {
    OddAt(w, w - 1, Clear(w - 1), Clear(Clear(w - 1)), h);
  }

  /** Whenever there is room for it, the lowest bit goes in two links; what is left is a multiple of
      the next power, up to parity. */
  lemma {:induction false} EvenStep(w: nat, h: nat, k: nat, next: nat) returns (r: nat)
    requires k >= 1 && next == k + 1 && Mult(w, k) && !Mult(w, next) && h + Pow2(k) <= w
    ensures h <= r && r + Pow2(k) <= w && Links(w, h) <= 2 + Links(r, h) && Mult(Even(r), next)
  {
    ClearExact(w, k, next);
    ClearMult(w, k, next);
    assert w % 2 == 0 && Pow2(k) >= 2;
    var s, p := w - Pow2(k), Skip(w - 1);
    if s == h || !(p < s - 2 && p >= h) {
      r := s;
      assert StepTo(w, h) == s;
    } else {
      r := p;
      ThroughPrev(w, h, k, next);
      assert StepTo(w, h) == w - 1 && StepTo(w - 1, h) == p;
    }
  }

  /** The block before an even one skips two more bits; where it does not skip too far for that, its
      height is a multiple of the next power, but for the last digit. */
  lemma {:induction false} ThroughPrev(w: nat, h: nat, k: nat, next: nat)
    requires k >= 1 && next == k + 1 && Mult(w, k) && !Mult(w, next) && w >= 4 && w % 2 == 0
    requires h <= Skip(w - 1) && Skip(w - 1) + Pow2(k) + 2 < w
    ensures StepTo(w - 1, h) == Skip(w - 1) && Mult(Even(Skip(w - 1)), next)
  {
    var x, y, z := w - 2, Clear(w - 2), Clear(Clear(w - 2));
    SkipOdd(w - 1, x, y, z);
    OddAt(w - 1, x, y, z, h);
    NotFar(w, k, z);
    PrevMult(w, k, next);
    EvenBelow(z);
  }

  lemma {:induction false} EvenBelow(z: nat)
    requires z % 2 == 0
    ensures Even(z + 1) == z
  {
  }

  lemma {:induction false} NotFar(w: nat, k: nat, z: nat)
    requires Mult(w, k) && w >= 4 && z == Clear(Clear(w - 2)) && z + Pow2(k) + 3 < w
    ensures k <= 2
  {
    if k >= 3 { FarPrev(w, k); }
  }

  lemma {:induction false} PrevMult(w: nat, k: nat, next: nat)
    requires 1 <= k <= 2 && next == k + 1 && Mult(w, k) && !Mult(w, next) && w >= 4
    ensures Mult(Clear(Clear(w - 2)), next)
  {
    ClearExact(w, k, next);
    ClearMult(w, k, next);
    var s := w - Pow2(k);
    assert Pow2(1) == 2 && Pow2(2) == 4;
    ClearMult(s, next, next + 1);
    if k == 2 {
      BelowMult(w, 1, 2);
      MultLe(Clear(s), next, next + 1);
    } else {
      ClearMult(Clear(s), next + 1, next + 2);
      MultLe(Clear(Clear(s)), next, next + 2);
    }
  }

  /** From three zero bits on, the block before skips less far. */
  lemma {:induction false} FarPrev(w: nat, k: nat)
    requires k >= 3 && Mult(w, k) && w > 0
    ensures Clear(Clear(w - 2)) == w - 8 && Pow2(k) >= 8
  {
    MultLe(w, 3, k);
    MultLe(w, 2, k);
    BelowMult(w, 1, 2);
    BelowMult(w, 2, 3);
    Pow2Le(3, k);
    assert Pow2(1) == 2 && Pow2(2) == 4 && Pow2(3) == 8;
  }

  // ---- one binary digit of the distance ----

  /** With at least 2^m to go, three links make the height a multiple of the next power below. */
  lemma {:induction false} AlignStep(w: nat, h: nat, t: nat, next: nat, m: nat) returns (r: nat)
    requires 1 <= t < m && next == t + 1 && Mult(Even(w), t) && h + Pow2(m) <= w
    ensures h <= r <= w && Links(w, h) <= 3 + Links(r, h) && Mult(Even(r), next)
  {
    Pow2Le(next, m);
    if Mult(Even(w), next) {
      r := w;
    } else if w % 2 == 0 {
      r := EvenStep(w, h, t, next);
    } else {
      r := AlignOdd(w, w - 1, h, t, next);
    }
  }

  lemma {:induction false} AlignOdd(w: nat, q: nat, h: nat, t: nat, next: nat) returns (r: nat)
    requires t >= 1 && next == t + 1 && w == q + 1 && q % 2 == 0 && Mult(q, t) && !Mult(q, next) && h + Pow2(t) <= q
    ensures h <= r <= w && Links(w, h) <= 3 + Links(r, h) && Mult(Even(r), next)
  {
    assert q >= 2 by { Pow2Le(1, t); }
    OddStep(w, h);
    var z := Clear(Clear(q));
    if z + 1 >= h {
      TwiceMult(q, z, t, next);
      r := z + 1;
    } else {
      r := EvenStep(q, h, t, next);
    }
  }

  lemma {:induction false} TwiceMult(q: nat, z: nat, t: nat, next: nat)
    requires t >= 1 && next == t + 1 && Mult(q, t) && z == Clear(Clear(q))
    ensures Mult(z, next) && Even(z + 1) == z
  {
    ClearMult(q, t, next);
    ClearMult(Clear(q), next, next + 1);
    MultLe(z, next, next + 1);
  }

  /** From the odd height above a multiple of 2^m, a skip that does not lead too far covers the digit. */
  lemma {:induction false} DigitOdd(w: nat, q: nat, h: nat, m: nat) returns (r: nat)
    requires w == q + 1 && q % 2 == 0 && m >= 1 && Mult(q, m) && h + Pow2(m) <= w < h + Pow2(m + 1) && w >= 3
    ensures h <= r < w && Mult(Even(r), m) && Links(w, h) == 1 + Links(r, h)
    ensures r < h + Pow2(m) || r == q
  {
    var z := Clear(Clear(q));
    OddAt(w, q, Clear(q), z, h);
    ClearMult(q, m, m + 1);
    TwiceMult(q, z, m, m + 1);
    MultLe(z, m, m + 1);
    r := StepTo(w, h);
  }

  /** Below a multiple q of 2^(m+1), the skips go down by growing powers, until they would lead too
      far. */
  lemma {:induction false} Climb(q: nat, h: nat, m: nat, e: nat, w: nat) returns (r: nat)
    requires 1 <= e <= m && Mult(q, m + 1) && q > 0 && h + Pow2(m) <= q < h + Pow2(m + 1)
    requires w == q - Pow2(e) + 1
    ensures h <= r <= w && r < h + Pow2(m) && Mult(Even(r), m)
    ensures Links(w, h) <= (m - e) / 2 + (if (m - e) % 2 == 0 then 1 else 3) + Links(r, h)
    decreases m - e
  {
    if e == m {
      r := TopClimb(q, h, m, w);
    } else {
      Pow2Le(e + 1, m);
      ClimbStep(q, h, m, e, w);
      var s := q - 4 * Pow2(e) + 1;
      if e + 2 <= m {
        Pow2Le(e + 2, m);
        r := Climb(q, h, m, e + 2, s);
        assert (m - e) / 2 == (m - (e + 2)) / 2 + 1 && (m - e) % 2 == (m - (e + 2)) % 2;
      } else if s >= h {
        r := s;
        TwiceBelow(q, m, e, s);
      } else {
        r := LastClimb(q, h, m, e, w);
      }
    }
  }

  /** When the power is that of the digit, one more link may be needed. */
  lemma {:induction false} TopClimb(q: nat, h: nat, m: nat, w: nat) returns (r: nat)
    requires 1 <= m && Mult(q, m + 1) && q > 0 && h + Pow2(m) <= q < h + Pow2(m + 1) && w == q - Pow2(m) + 1
    ensures h <= r <= w && r < h + Pow2(m) && Mult(Even(r), m) && Links(w, h) <= 1 + Links(r, h)
  {
    BelowMult(q, m, m + 1);
    var x := q - Pow2(m);
    MultLe(x, 1, m);
    assert Even(w) == x && Even(x) == x;
    if w < h + Pow2(m) {
      r := w;
    } else {
      MultAtLeast(q, m + 1);
      Pow2Le(1, m);
      r := DigitOdd(w, x, h, m);
    }
  }

  /** The skip of such a height. */
  lemma {:induction false} ClimbStep(q: nat, h: nat, m: nat, e: nat, w: nat)
    requires 1 <= e < m && Mult(q, m + 1) && q > 0 && w == q - Pow2(e) + 1 && h < w
    ensures q >= 4 * Pow2(e) && StepTo(w, h) == if q - 4 * Pow2(e) + 1 >= h then q - 4 * Pow2(e) + 1 else w - 1
  {
    MultLe(q, e + 1, m + 1);
    MultLe(q, e + 2, m + 1);
    BelowMult(q, e, e + 1);
    BelowMult(q, e + 1, e + 2);
    Pow2Le(1, e);
    ClimbAt(q, Pow2(e), Pow2(e - 1), h, w);
  }

  lemma {:induction false} ClimbAt(q: nat, p: nat, half: nat, h: nat, w: nat)
    requires p == 2 * half && half > 0 && q % 2 == 0 && q >= 4 * p && w == q - p + 1 && h < w
    requires Clear(q - p) == q - 2 * p && Clear(q - 2 * p) == q - 4 * p
    ensures StepTo(w, h) == if q - 4 * p + 1 >= h then q - 4 * p + 1 else w - 1
  {
    OddAt(w, q - p, q - 2 * p, q - 4 * p, h);
  }

  /** The last skip of a climb leads to such a multiple again. */
  lemma {:induction false} TwiceBelow(q: nat, m: nat, e: nat, s: nat)
    requires 1 <= e && m == e + 1 && Mult(q, m + 1) && q > 0 && q >= 4 * Pow2(e) && s == q - 4 * Pow2(e) + 1
    ensures Mult(Even(s), m) && Pow2(m + 1) == 4 * Pow2(e)
  {
    MultLe(q, m, m + 1);
    BelowMult(q, e, m);
    BelowMult(q, m, m + 1);
    TwiceMult(q - Pow2(e), q - 4 * Pow2(e), e, m);
  }

  lemma {:induction false} LastClimb(q: nat, h: nat, m: nat, e: nat, w: nat) returns (r: nat)
    requires 1 <= e && m == e + 1 && Mult(q, m + 1) && q > 0 && h + Pow2(m) <= q < h + Pow2(m + 1)
    requires w == q - Pow2(e) + 1 && h < w && StepTo(w, h) == w - 1
    ensures h <= r <= w && r < h + Pow2(m) && Mult(Even(r), m) && Links(w, h) <= 3 + Links(r, h)
  {
    MultLe(q, m, m + 1);
    BelowMult(q, e, m);
    r := EvenStep(w - 1, h, e, m);
  }

  /** From a multiple of 2^m, up to parity, the digit m of the distance goes. */
  lemma {:induction false} Digit(w: nat, h: nat, m: nat) returns (r: nat)
    requires m >= 1 && Mult(Even(w), m) && h <= w < h + Pow2(m + 1)
    ensures h <= r <= w && r < h + Pow2(m) && Mult(Even(r), m) && Links(w, h) <= m / 2 + 4 + Links(r, h)
  {
    if w < h + Pow2(m) {
      r := w;
    } else if w % 2 == 0 {
      r := DigitEven(w, h, m);
    } else {
      Pow2Le(1, m);
      r := DigitOdd(w, w - 1, h, m);
      if r >= h + Pow2(m) { r := DigitEven(r, h, m); }
    }
  }

  lemma {:induction false} DigitEven(q: nat, h: nat, m: nat) returns (r: nat)
    requires m >= 1 && Mult(q, m) && q % 2 == 0 && h + Pow2(m) <= q < h + Pow2(m + 1)
    ensures h <= r <= q && r < h + Pow2(m) && Mult(Even(r), m) && Links(q, h) <= m / 2 + 3 + Links(r, h)
  {
    if Mult(q, m + 1) {
      ClearMult(q, m + 1, m + 2);
      Pow2Le(1, m);
      assert StepTo(q, h) == q - 1;
      r := Climb(q, h, m, 1, q - 1);
    } else {
      r := EvenStep(q, h, m, m + 1);
      MultLe(Even(r), m, m + 1);
    }
  }

  // ---- all of them ----

  /** How many links are enough: a quarter of n^2, and some. */
  function Enough(n: nat): nat { n * n / 4 + 4 * n + 1 }

  lemma {:induction false} Squares(a: int, s: int)
    requires s == a * a
    ensures (2 * a - 1) * (2 * a - 1) == 4 * (s - a) + 1 && (2 * a) * (2 * a) == 4 * s
    ensures (2 * a + 1) * (2 * a + 1) == 4 * (s + a) + 1
  {
  }

  lemma {:induction false} EnoughNext(m: nat, n: nat)
    requires n == m + 1
    ensures Enough(n) == Enough(m) + n / 2 + 4
  {
    var a := n / 2;
    var s := a * a;
    Squares(a, s);
    if n % 2 == 0 {
      assert n == 2 * a && m == 2 * a - 1;
      assert n * n / 4 == s && m * m / 4 == s - a;
    } else {
      assert n == 2 * a + 1 && m == 2 * a;
      assert n * n / 4 == s + a && m * m / 4 == s;
    }
  }

  /** From a multiple of 2^m, up to parity. */
  lemma {:induction false} AlignedLinks(w: nat, h: nat, m: nat)
    requires Mult(Even(w), m) && h <= w < h + Pow2(m + 1)
    ensures Links(w, h) <= Enough(m)
  {
    if m == 0 {
      assert w == h || StepTo(w, h) == h;
    } else {
      var l := m - 1;
      var r := Digit(w, h, m);
      MultLe(Even(r), l, m);
      AlignedLinks(r, h, l);
      EnoughNext(l, m);
    }
  }

  lemma {:induction false} LinksFrom(w: nat, h: nat, m: nat, t: nat)
    requires 1 <= t && Mult(Even(w), t) && h <= w < h + Pow2(m + 1)
    ensures Links(w, h) <= Enough(m) + if t < m then 3 * (m - t) else 0
    decreases m, m - t
  {
    if t >= m {
      MultLe(Even(w), m, t);
      AlignedLinks(w, h, m);
    } else if w < h + Pow2(m) {
      var l := m - 1;
      LinksFrom(w, h, l, t);
      EnoughNext(l, m);
    } else {
      var u := AlignStep(w, h, t, t + 1, m);
      LinksFrom(u, h, m, t + 1);
    }
  }

  /** Going back fewer than 2^(n+1) blocks takes at most n^2/4 + 7n + 1 links. */
  lemma {:induction false} FewLinks(w: nat, h: nat, n: nat)
    requires h <= w < h + Pow2(n + 1)
    ensures Links(w, h) <= n * n / 4 + 7 * n + 1
  {
    assert Mult(Even(w) / 2, 0) && Mult(Even(w), 1);
    LinksFrom(w, h, n, 1);
  }

  /** Few for a distance: at most n^2/4 + 7n + 1, if that is less than 2^(n+1). */
  ghost predicate Few(links: nat, distance: int) {
    forall n: nat :: distance < Pow2(n + 1) ==> links <= n * n / 4 + 7 * n + 1
  }

  lemma {:induction false} LinksFew(w: nat, h: nat)
    requires h <= w
    ensures Few(Links(w, h), w - h)
  {
    forall n: nat | w - h < Pow2(n + 1)
      ensures Links(w, h) <= n * n / 4 + 7 * n + 1
    {
      FewLinks(w, h, n);
    }
  }

  /** After some links a search from `start` is at height w. */
  ghost predicate Counted(links: nat, w: nat, start: nat, h: nat) {
    h <= w && h <= start && links + Links(w, h) == Links(start, h)
  }

  /** One more link. */
  lemma {:induction false} CountLink(links: nat, w: nat, start: nat, h: nat, skip: nat, skipPrev: nat, skips: bool)
    requires h < w && skip == GetSkipHeight(w) && skipPrev == GetSkipHeight(w - 1)
    requires skips == (skip == h || (skip > h && !(skipPrev < skip - 2 && skipPrev >= h)))
    ensures skip < w
    ensures Counted(links, w, start, h) ==> Counted(links + 1, if skips then skip else w - 1, start, h)
  {
    SkipIs(w);
    SkipIs(w - 1);
    assert Links(w, h) == 1 + Links(StepTo(w, h), h);
  }
}

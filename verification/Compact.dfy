/** The compact form of a 256-bit target: a size in bytes and a mantissa of 23 bits, the sign in
    between. */
module Compact {
  import opened Bits
  import opened Limbs
  import opened ArithUint

  const SIGN := 0x0080_0000
  const SIZE := 0x0100_0000

  /** The fields of a compact word. */
  function SizeOf(n: nat): nat { n / 0x0100_0000 }

  function MantissaOf(n: nat): nat { n % 0x0080_0000 }

  predicate HasSign(n: nat) { n / 0x0080_0000 % 2 == 1 }

  function Bytes(n: nat): (r: nat)
    ensures r > 0
  {
    if n == 0 then 1 else 256 * Bytes(n - 1)
  }

  /** How many bytes a number takes. */
  function ByteLen(v: nat): nat {
    if v == 0 then 0 else 1 + ByteLen(v / 256)
  }

  datatype Form = Form(size: nat, mantissa: nat)

  /** The number a compact form stands for, of any size. */
  function Expand(f: Form): nat {
    Positive(f.mantissa, Bytes(if f.size <= 3 then 0 else f.size - 3));
    if f.size <= 3 then Shrink(f.mantissa, Bytes(3 - f.size)) else f.mantissa * Bytes(f.size - 3)
  }

  function Shrink(x: nat, m: nat): (r: nat)
    requires m > 0
    ensures r <= x
  {
    DivLe(x, m);
    x / m
  }

  /** What one step of the mantissa is worth. */
  function Unit(f: Form): nat { if f.size <= 3 then 1 else Bytes(f.size - 3) }

  function Leading(v: nat): nat {
    var n := ByteLen(v);
    Positive(v, Bytes(if n <= 3 then 3 - n else 0));
    if n <= 3 then v * Bytes(3 - n) else Shrink(v, Bytes(n - 3))
  }

  /** One byte is moved from the mantissa to the size when the sign bit is in the way. */
  function ClearOfSign(n: nat, m: nat): Form {
    if HasSign(m) then Form(n + 1, m / 256) else Form(n, m)
  }

  /** The compact form of a number: its size and its three leading bytes. */
  function Squeeze(v: nat): Form { ClearOfSign(ByteLen(v), Leading(v)) }

  method SetCompact(a: BaseUint, nCompact: word) returns (negative: bool, overflow: bool)
    requires a.Valid()
    modifies a.pn
    ensures var f := Form(SizeOf(nCompact), MantissaOf(nCompact));
            && a.Value() == Wrap(Expand(f))
            && (overflow <==> Expand(f) >= Modulus())
            && (negative <==> HasSign(nCompact) && (if f.size <= 3 then Expand(f) else f.mantissa) != 0)
  {
    var nSize, nWord := SizeOf(nCompact), MantissaOf(nCompact);
    ghost var f := Form(nSize, nWord);
    assert nWord < Pow2(64) by { PowBits(); Pow2Le(24, 64); }
    if nSize <= 3 {
      BytesPow(3 - nSize);
      nWord := Shrink(nWord, Pow2(8 * (3 - nSize)));
      a.Assign(nWord);
      SmallFits(nWord);
    } else {
      BytesPow(nSize - 3);
      a.Assign(nWord);
      a.ShiftLeft(8 * (nSize - 3));
      OverflowIs(f);
    }
    negative := nWord != 0 && HasSign(nCompact);
    overflow := nWord != 0 && (nSize > 34 || (nWord > 0xff && nSize > 33) || (nWord > 0xffff && nSize > 32));
  }

  method GetCompact(a: BaseUint, fNegative: bool) returns (nCompact: nat)
    requires a.Valid()
    ensures var f := Squeeze(a.Value());
            && f.mantissa < SIGN && f.size < 256
            && nCompact == f.size * SIZE + f.mantissa + (if fNegative && f.mantissa != 0 then SIGN else 0)
  {
    var b := a.BitLength();
    var nSize := (b + 7) / 8;
    ghost var v := a.Value();
    SizeIs(v, b);
    ValBound(a.pn[..]);
    SqueezeFits(v);
    LeadingFits(v);
    ClearFits(nSize, Leading(v));
    nCompact := LeadingBytes(a, nSize);
    if HasSign(nCompact) {
      nCompact := nCompact / 256;
      nSize := nSize + 1;
    }
    assert Form(nSize, nCompact) == Squeeze(v);
    assert MantissaOf(nCompact) == nCompact;
    assert nSize < 256;
    nCompact := PackForm(nSize, nCompact, fNegative);
  }

  method LeadingBytes(a: BaseUint, nSize: nat) returns (m: nat)
    requires a.Valid() && nSize == ByteLen(a.Value())
    ensures m == Leading(a.Value())
  {
    ghost var v := a.Value();
    if nSize <= 3 {
      m := a.GetLow64();
      LowLeading(v, nSize, m);
      m := m * Pow2(8 * (3 - nSize));
    } else {
      var bn := new BaseUint.Copy(a);
      bn.ShiftRight(8 * (nSize - 3));
      m := bn.GetLow64();
      HighLeading(v, nSize, bn.Value(), m);
    }
  }

  lemma LowLeading(v: nat, n: nat, low: nat)
    requires n == ByteLen(v) <= 3 && low == v % Pow2(64)
    ensures low * Pow2(8 * (3 - n)) == Leading(v)
  {
    ByteLenIs(v, n);
    FitsLow64(v, n);
    BytesPow(3 - n);
  }

  lemma HighLeading(v: nat, n: nat, w: nat, low: nat)
    requires n == ByteLen(v) > 3 && w == v / Pow2(8 * (n - 3)) && low == w % Pow2(64)
    ensures low == Leading(v)
  {
    BytesPow(n - 3);
    assert w == Leading(v);
    LeadingFits(v);
    SmallBytes();
    FitsLow64(w, 3);
  }

  /** Or the size and the sign onto the mantissa. */
  method PackForm(nSize: nat, mantissa: nat, fNegative: bool) returns (nCompact: nat)
    requires mantissa < SIGN
    ensures nCompact == nSize * SIZE + mantissa + (if fNegative && mantissa != 0 then SIGN else 0)
  {
    nCompact := BitOr(mantissa, nSize * SIZE);
    OrSize(mantissa, nSize);
    if fNegative && MantissaOf(nCompact) != 0 {
      OrSign(nCompact);
      nCompact := BitOr(nCompact, SIGN);
    }
  }

  lemma SmallBytes()
    ensures Bytes(0) == 1 && Bytes(1) == 256 && Bytes(2) == 0x10000 && Bytes(3) == SIZE
  {
  }

  lemma PowBits()
    ensures Pow2(23) == SIGN && Pow2(24) == SIZE
  {
    assert Pow2(8) == 256;
    Pow2Add(8, 8);
    Pow2Add(16, 8);
  }

  /** The fields of a compact word can be read back from it. */
  lemma FieldsBack(size: nat, mantissa: nat, sign: nat)
    requires mantissa < SIGN && (sign == 0 || sign == SIGN)
    ensures var n := size * SIZE + mantissa + sign;
            SizeOf(n) == size && MantissaOf(n) == mantissa && (HasSign(n) <==> sign != 0)
    ensures size * SIZE % 0x0100_0000 == 0
  {
    var n := size * SIZE + mantissa + sign;
    DivUnique(n, SIZE, size, mantissa + sign);
    DivUnique(n, SIGN, 2 * size + (if sign == 0 then 0 else 1), mantissa);
  }

  lemma OrSize(mantissa: nat, size: nat)
    requires mantissa < SIGN
    ensures var n := BitOr(mantissa, size * SIZE);
            n == size * SIZE + mantissa && MantissaOf(n) == mantissa && !HasSign(n)
  {
    FieldsBack(size, mantissa, 0);
    OrAbove(mantissa, size * SIZE);
  }

  lemma OrAbove(x: nat, y: nat)
    requires x < SIGN && y % 0x0100_0000 == 0
    ensures BitOr(x, y) == x + y
  {
    PowBits();
    OrDisjoint(x, y, 24);
  }

  lemma OrSign(x: nat)
    requires !HasSign(x)
    ensures BitOr(x, SIGN) == x + SIGN
  {
    PowBits();
    OrBit(x, 23);
  }

  lemma SmallFits(x: nat)
    requires x < SIZE
    ensures x < Modulus() && Wrap(x) == x
  {
    SmallBytes();
    BytesMono(3, 32);
    BytesModulus();
    NoWrap(x);
  }

  /** Or-ing in a bit that is clear adds it. */
  lemma {:induction false} OrBit(x: nat, n: nat)
    requires !TestBit(x, n)
    ensures BitOr(x, Pow2(n)) == x + Pow2(n)
  {
    if n > 0 && x > 0 {
      HalfBit(x, n);
      OrBit(x / 2, n - 1);
    } else {
      assert Pow2(0) == 1;
      assert x / 1 == x;
    }
  }

  lemma HalfBit(x: nat, n: nat)
    requires n > 0
    ensures x / Pow2(n) == x / 2 / Pow2(n - 1)
  {
    var p := Pow2(n - 1);
    var q, r := x / 2 / p, x / 2 % p;
    DivMod(x / 2, p);
    assert x == 2 * (q * p + r) + x % 2;
    assert 2 * (q * p) == q * (2 * p) by { MulAssoc(2, q, p); MulAssoc(q, 2, p); }
    DivUnique(x, 2 * p, q, 2 * r + x % 2);
  }

  lemma {:induction false} BytesPow(n: nat)
    ensures Bytes(n) == Pow2(8 * n)
  {
    if n > 0 {
      BytesPow(n - 1);
      Pow2Add(8, 8 * (n - 1));
      assert Pow2(8) == 256;
    }
  }

  lemma {:induction false} BytesAdd(m: nat, n: nat)
    ensures Bytes(m + n) == Bytes(m) * Bytes(n)
  {
    BytesPow(m);
    BytesPow(n);
    BytesPow(m + n);
    Pow2Add(8 * m, 8 * n);
    assert 8 * m + 8 * n == 8 * (m + n);
  }

  lemma {:induction false} BytesMono(m: nat, n: nat)
    requires m <= n
    ensures Bytes(m) <= Bytes(n)
  {
    if m < n { BytesMono(m, n - 1); }
  }

  lemma BytesModulus()
    ensures Bytes(32) == Modulus()
  {
    BytesPow(32);
    WordPow(WIDTH);
  }

  /** The number of bytes is the only n with 256^(n-1) <= v < 256^n. */
  lemma {:induction false} ByteLenIs(v: nat, n: nat)
    ensures v < Bytes(ByteLen(v)) && (v > 0 ==> Bytes(ByteLen(v) - 1) <= v)
    ensures v < Bytes(n) && (n > 0 ==> Bytes(n - 1) <= v) ==> n == ByteLen(v)
  {
    if v > 0 {
      ByteLenIs(v / 256, if n > 0 then n - 1 else 0);
      assert n >= 2 ==> Bytes(n - 1) == 256 * Bytes(n - 2);
    } else if n > 0 {
      assert Bytes(n - 1) > 0;
    }
  }

  lemma SizeIs(v: nat, bits: nat)
    requires bits == 0 <==> v == 0
    requires bits > 0 ==> Pow2(bits - 1) <= v < Pow2(bits)
    ensures ByteLen(v) == (bits + 7) / 8
  {
    var n := (bits + 7) / 8;
    if bits > 0 {
      BytesPow(n);
      BytesPow(n - 1);
      Pow2Le(bits, 8 * n);
      Pow2Le(8 * (n - 1), bits - 1);
    }
    ByteLenIs(v, n);
  }

  lemma FitsLow64(v: nat, n: nat)
    requires n <= 3 && v < Bytes(n)
    ensures v % Pow2(64) == v
  {
    BytesMono(n, 8);
    BytesPow(8);
    DivUnique(v, Pow2(64), 0, v);
  }

  lemma LeadingFits(v: nat)
    ensures Leading(v) < SIZE
    ensures v > 0 ==> Leading(v) >= 0x10000
  {
    var n := ByteLen(v);
    ByteLenIs(v, n);
    assert Bytes(2) == 0x10000 && Bytes(3) == SIZE by { assert Bytes(1) == 256; }
    if v == 0 {
    } else if n <= 3 {
      BytesAdd(n, 3 - n);
      BytesAdd(n - 1, 3 - n);
      MulLe(v + 1, Bytes(n), Bytes(3 - n));
      MulDist(v, 1, Bytes(3 - n));
      MulLe(Bytes(n - 1), v, Bytes(3 - n));
    } else {
      BytesAdd(3, n - 3);
      BytesAdd(2, n - 3);
      DivBetween(v, 0x10000, SIZE, Bytes(n - 3));
    }
  }

  lemma DivBetween(v: nat, lo: nat, hi: nat, m: nat)
    requires 0 < m && lo * m <= v < hi * m
    ensures lo <= v / m < hi
  {
    DivMod(v, m);
    var q := v / m;
    if q >= hi { MulLe(hi, q, m); }
    if q < lo { MulLe(q + 1, lo, m); MulDist(q, 1, m); }
  }

  /** The form of a 256-bit number fits its fields, so neither assert of the encoder fires; and no more than
      the top byte of the mantissa is left unused. */
  lemma SqueezeFits(v: nat)
    requires v < Modulus()
    ensures Squeeze(v).mantissa < SIGN && Squeeze(v).size <= 33
    ensures if v == 0 then Squeeze(v) == Form(0, 0) else 0x8000 <= Squeeze(v).mantissa < 0x80_0000
  {
    LeadingFits(v);
    ClearFits(ByteLen(v), Leading(v));
    SizeFits(v, ByteLen(v));
    if v == 0 { assert ByteLen(v) == 0 && Leading(v) == 0; }
  }

  lemma SizeFits(v: nat, n: nat)
    requires v < Modulus() && n == ByteLen(v)
    ensures n <= 32
  {
    BytesModulus();
    ByteLenIs(v, n);
    if n > 32 { BytesMono(32, n - 1); }
  }

  lemma ClearFits(n: nat, m: nat)
    requires m < SIZE
    ensures var f := ClearOfSign(n, m); f.mantissa < SIGN && f.size <= n + 1 && MantissaOf(f.mantissa) == f.mantissa
    ensures m >= 0x10000 ==> ClearOfSign(n, m).mantissa >= 0x8000
  {
  }

  lemma OverflowIs(f: Form)
    requires f.size > 3 && f.mantissa < SIGN
    ensures Expand(f) >= Modulus() <==>
            f.mantissa != 0 && (f.size > 34 || (f.mantissa > 0xff && f.size > 33) ||
                                (f.mantissa > 0xffff && f.size > 32))
  {
    var m, n := f.mantissa, f.size - 3;
    if n >= 32 {
      FarOver(m, n);
    } else if n >= 30 {
      AtTheEdge(m, n, 32 - n);
      SmallBytes();
    } else {
      FarBelow(m, n);
    }
  }

  lemma FarOver(m: nat, n: nat)
    requires n >= 32
    ensures m * Bytes(n) >= Modulus() <==> m != 0
  {
    BytesModulus();
    BytesMono(32, n);
    if m > 0 { MulLe(1, m, Bytes(n)); }
  }

  lemma AtTheEdge(m: nat, n: nat, k: nat)
    requires k + n == 32
    ensures m * Bytes(n) >= Modulus() <==> m >= Bytes(k)
  {
    assert Modulus() == Bytes(k) * Bytes(n) by {
      BytesModulus();
      BytesAdd(k, n);
    }
    if m >= Bytes(k) { MulLe(Bytes(k), m, Bytes(n)); } else { MulLt(m, Bytes(k), Bytes(n)); }
  }

  lemma FarBelow(m: nat, n: nat)
    requires n < 30 && m < SIZE
    ensures m * Bytes(n) < Modulus()
  {
    var room := Bytes(n + 3);
    assert room <= Modulus() by {
      BytesModulus();
      BytesMono(n + 3, 32);
    }
    assert room == SIZE * Bytes(n) by {
      SmallBytes();
      BytesAdd(3, n);
    }
    MulLt(m, SIZE, Bytes(n));
  }

  /** The compact form never exceeds the number, and falls short of it by less than one step of
      the mantissa. */
  lemma Rounds(v: nat)
    ensures var f := Squeeze(v); Expand(f) <= v < Expand(f) + Unit(f)
  {
    var n, m := ByteLen(v), Leading(v);
    LeadingFits(v);
    if n <= 3 {
      SmallExact(v);
    } else {
      var p, pp := Bytes(n - 3), Bytes(n - 2);
      DivMod(v, p);
      RoundedOff(v, m, v % p, p, m / 256, pp);
    }
  }

  lemma RoundedOff(v: nat, m: nat, r: nat, p: nat, k: nat, pp: nat)
    requires v == m * p + r && r < p && k == m / 256 && pp == 256 * p
    ensures m * p <= v < m * p + p && k * pp <= v < k * pp + pp
  {
    assert m == k * 256 + m % 256;
    MulDist(k * 256, m % 256, p);
    MulAssoc(k, 256, p);
    MulLe(m % 256, 255, p);
  }

  lemma ShrinkExact(x: nat, m: nat)
    requires m > 0
    ensures x * m >= 0 && Shrink(x * m, m) == x
  {
    Positive(x, m);
    DivUnique(x * m, m, x, 0);
  }

  /** Up to three bytes, nothing is lost except the low byte of three when the sign bit is set. */
  lemma SmallExact(v: nat)
    requires ByteLen(v) <= 3
    ensures Expand(Squeeze(v)) == if v >= SIGN then v / 256 * 256 else v
  {
    ByteLenIs(v, ByteLen(v));
    SmallBytes();
    LeadingSmall(v, ByteLen(v));
    if ByteLen(v) == 1 {
      OneByte(v);
    } else if ByteLen(v) == 2 {
      TwoBytes(v);
    } else {
      NoneOrThree(v, ByteLen(v));
    }
  }

  lemma OneByte(v: nat)
    requires v < 256
    ensures Expand(ClearOfSign(1, v * 0x10000)) == v
  {
    SmallBytes();
    assert v * 0x10000 / 256 == v * 256;
    assert Shrink(v * 256, 256) == v && Shrink(v * 0x10000, 0x10000) == v;
  }

  lemma TwoBytes(v: nat)
    requires v < 0x10000
    ensures Expand(ClearOfSign(2, v * 256)) == v
  {
    SmallBytes();
    assert v * 256 / 256 == v;
    assert Shrink(v * 256, 256) == v && Shrink(v, 1) == v;
  }

  lemma NoneOrThree(v: nat, n: nat)
    requires (n == 3 && v < SIZE) || (n == 0 && v == 0)
    ensures Expand(ClearOfSign(n, v)) == if v >= SIGN then v / 256 * 256 else v
  {
    SmallBytes();
    assert Shrink(v, 1) == v && Shrink(0, SIZE) == 0;
  }

  lemma LeadingSmall(v: nat, n: nat)
    requires n == ByteLen(v) <= 3
    ensures v == 0 <==> n == 0
    ensures Leading(v) == if n == 0 then 0 else if n == 1 then v * 0x10000 else if n == 2 then v * 256 else v
  {
    SmallBytes();
  }

  /** Squeezing what a squeezed number expands to changes nothing. */
  lemma SqueezeIdempotent(v: nat)
    ensures Squeeze(Expand(Squeeze(v))) == Squeeze(v)
  {
    if ByteLen(v) <= 3 {
      SmallExact(v);
      if v >= SIGN {
        ThreeBytes(v);
        SmallAgain(v);
      }
    } else {
      LargeAgain(v, Squeeze(v));
    }
  }

  lemma SmallAgain(v: nat)
    requires ByteLen(v) == 3 && v >= SIGN
    ensures Squeeze(v / 256 * 256) == Squeeze(v)
  {
    var u := v / 256 * 256;
    SmallBytes();
    ByteLenIs(v, 3);
    ByteLenIs(u, 3);
    LeadingSmall(v, 3);
    LeadingSmall(u, 3);
    assert u / 256 == v / 256;
  }

  lemma ThreeBytes(v: nat)
    requires v >= SIGN && ByteLen(v) <= 3
    ensures ByteLen(v) == 3
  {
    ByteLenIs(v, 3);
    ByteLenIs(v, ByteLen(v));
    SmallBytes();
  }

  lemma LargeAgain(v: nat, f: Form)
    requires ByteLen(v) > 3 && f == Squeeze(v)
    ensures Squeeze(Expand(f)) == f
  {
    LeadingFits(v);
    var mm := SameForm(ByteLen(v), Leading(v));
    var u := LargeExpands(ByteLen(v), Leading(v), mm);
  }

  lemma SameForm(n: nat, m: nat) returns (mm: nat)
    ensures mm == if HasSign(m) then m / 256 * 256 else m
    ensures m < SIZE ==> ClearOfSign(n, mm) == ClearOfSign(n, m)
  {
    mm := if HasSign(m) then m / 256 * 256 else m;
  }

  lemma LargeExpands(n: nat, m: nat, mm: nat) returns (u: nat)
    requires n > 3 && 0x10000 <= m < SIZE && mm == if HasSign(m) then m / 256 * 256 else m
    ensures u == Expand(ClearOfSign(n, m)) && ByteLen(u) == n && Leading(u) == mm
  {
    var p := Bytes(n - 3);
    Positive(mm, p);
    u := mm * p;
    assert Expand(ClearOfSign(n, m)) == u by {
      if HasSign(m) { MulAssoc(m / 256, 256, p); }
    }
    SmallBytes();
    BytesAdd(3, n - 3);
    BytesAdd(2, n - 3);
    MulLe(0x10000, mm, p);
    MulLt(mm, SIZE, p);
    ByteLenIs(u, n);
    ShrinkExact(mm, p);
  }

  /** A 256-bit number put in compact form and read back: the fields come back as written, nothing
      overflows, the number never grows, loses less than one step of the mantissa, and takes the
      same compact form again. */
  lemma CompactRoundTrip(v: nat, sign: nat)
    requires v < Modulus() && (sign == 0 || sign == SIGN)
    ensures var f := Squeeze(v);
            var n := f.size * SIZE + f.mantissa + sign;
            && Form(SizeOf(n), MantissaOf(n)) == f && n < B
            && Expand(f) <= v < Expand(f) + Unit(f)
            && Wrap(Expand(f)) == Expand(f)
            && Squeeze(Expand(f)) == f
  {
    SqueezeFits(v);
    FieldsBack(Squeeze(v).size, Squeeze(v).mantissa, sign);
    Rounds(v);
    SqueezeIdempotent(v);
    NoWrap(Expand(Squeeze(v)));
  }
}

/** The 256-bit unsigned integer, eight 32-bit limbs overwritten in place by every operator.
    Each operator is proved against arithmetic on the value the limbs stand for. */
module ArithUint {
  import opened Bits
  import opened Limbs

  /** The 32 bits of a 64-bit sum that stay in a word, and the carry into the next. */
  function Low32(n: nat): word { n % 0x1_0000_0000 }

  function High32(n: nat): nat { n / 0x1_0000_0000 }

  /** A digit and its carry stand for the sum they were split from. */
  lemma DigitStep(n: nat, i: nat)
    ensures Low32(n) * BPow(i) + High32(n) * BPow(i + 1) == n * BPow(i)
  {
    var p := BPow(i);
    assert n == High32(n) * B + Low32(n);
    MulAssoc(High32(n), B, p);
    MulDist(High32(n) * B, Low32(n), p);
  }

  lemma AddStep(done: seq<word>, x: seq<word>, y: seq<word>, c: nat, i: nat, w: word)
    requires i == |done| < |x| == |y|
    requires Val(done) + c * BPow(i) == Val(x[..i]) + Val(y[..i])
    requires w == Low32(c + x[i] + y[i])
    ensures Val(done + [w]) + High32(c + x[i] + y[i]) * BPow(i + 1) == Val(x[..i + 1]) + Val(y[..i + 1])
  {
    var a: int, b: int := x[i], y[i];
    ValSnoc(done, w);
    ValPrefix(x, i);
    ValPrefix(y, i);
    DigitStep(c + a + b, i);
    MulDist(c + a, b, BPow(i));
    MulDist(c, a, BPow(i));
  }

  /** The carry out of the last word is lost. */
  lemma Finish(done: seq<word>, n: nat, carry: nat)
    requires |done| == WIDTH
    requires Val(done) + carry * BPow(WIDTH) == n
    ensures Val(done) == Wrap(n)
  {
    ValBound(done);
    Reduced(n, Val(done), carry);
  }

  /** The first i words are overwritten, the others still those of x. */
  ghost predicate Halfway(now: seq<word>, done: seq<word>, x: seq<word>, i: nat) {
    |now| == |x| == WIDTH && i <= WIDTH && |done| == i && now == done + x[i..]
  }

  lemma Onward(now: seq<word>, done: seq<word>, x: seq<word>, i: nat, w: word)
    requires Halfway(now, done, x, i) && i < WIDTH
    ensures now[i] == x[i] && Halfway(now[i := w], done + [w], x, i + 1)
  {
    assert now[i := w] == (done + [w]) + x[i + 1..];
  }

  lemma AllDone(now: seq<word>, done: seq<word>, x: seq<word>)
    requires Halfway(now, done, x, WIDTH)
    ensures now == done && x[..WIDTH] == x
  {
  }

  /** From i on, the words are still those of y. */
  ghost predicate Ahead(now: seq<word>, y: seq<word>, i: nat) {
    |now| == |y| == WIDTH && i <= WIDTH && now[i..] == y[i..]
  }

  lemma StillAhead(now: seq<word>, y: seq<word>, i: nat, w: word)
    requires Ahead(now, y, i) && i < WIDTH
    ensures now[i] == y[i] && Ahead(now, y, i + 1) && Ahead(now[i := w], y, i + 1)
  {
    assert now[i] == now[i..][0] && y[i] == y[i..][0];
    assert now[i + 1..] == now[i..][1..] && y[i + 1..] == y[i..][1..];
    assert now[i := w][i + 1..] == now[i + 1..];
  }

  /** The sum of the first i words is done, but for the carry. */
  ghost predicate Adding(x: seq<word>, y: seq<word>, now: seq<word>, other: seq<word>, i: nat, done: seq<word>,
                         carry: nat) {
    && carry <= 1 && Halfway(now, done, x, i) && Ahead(other, y, i)
    && Val(done) + carry * BPow(i) == Val(x[..i]) + Val(y[..i])
  }

  /** The other number's words may be the very words that are overwritten. */
  lemma AddTurn(x: seq<word>, y: seq<word>, now: seq<word>, other: seq<word>, i: nat, done: seq<word>, carry: nat,
                n: nat, w: word)
    requires Adding(x, y, now, other, i, done, carry) && i < WIDTH
    requires n == carry + now[i] + other[i] && w == Low32(n)
    ensures Adding(x, y, now[i := w], other, i + 1, done + [w], High32(n))
    ensures Adding(x, y, now[i := w], other[i := w], i + 1, done + [w], High32(n))
  {
    Onward(now, done, x, i, w);
    StillAhead(other, y, i, w);
    AddStep(done, x, y, carry, i, w);
  }

  lemma AddEnd(x: seq<word>, y: seq<word>, now: seq<word>, other: seq<word>, done: seq<word>, carry: nat)
    requires Adding(x, y, now, other, WIDTH, done, carry)
    ensures Val(now) == Wrap(Val(x) + Val(y))
  {
    AllDone(now, done, x);
    assert y[..WIDTH] == y;
    Finish(done, Val(x) + Val(y), carry);
  }

  /** Above word j all are zero, and it holds less than s bits. */
  ghost predicate Room(p: seq<word>, j: nat, s: nat) {
    |p| == WIDTH && (forall t :: j < t < WIDTH ==> p[t] == 0) && (j < WIDTH ==> p[j] < Pow2(s))
  }

  class BaseUint {
    const pn: array<word>

    ghost predicate Valid() { pn.Length == WIDTH }

    ghost function Value(): nat
      reads pn
    {
      Val(pn[..])
    }

    constructor Zero()
      ensures Valid() && fresh(pn) && Value() == 0
    {
      pn := new word[WIDTH](_ => 0);
      new;
      ValZeros(pn[..]);
    }

    constructor Copy(b: BaseUint)
      requires b.Valid()
      ensures Valid() && fresh(pn) && pn[..] == b.pn[..] && Value() == b.Value()
    {
      pn := new word[WIDTH](i requires 0 <= i < b.pn.Length reads b.pn => b.pn[i]);
      new;
      assert pn[..] == b.pn[..];
    }

    method AddAssign(b: BaseUint)
      requires Valid() && b.Valid()
      modifies pn
      ensures Value() == Wrap(old(Value()) + old(b.Value()))
    {
      ghost var x, y, done := pn[..], b.pn[..], [];
      var carry: nat := 0;
      for i := 0 to WIDTH
        invariant Adding(x, y, pn[..], b.pn[..], i, done, carry)
      {
        var n: nat := carry + pn[i] + b.pn[i];
        ghost var w: word := Low32(n);
        AddTurn(x, y, pn[..], b.pn[..], i, done, carry, n, w);
        done := done + [w];
        pn[i] := Low32(n);
        carry := High32(n);
      }
      AddEnd(x, y, pn[..], b.pn[..], done, carry);
    }

    constructor Of(n: nat)
      requires n < Pow2(64)
      ensures Valid() && fresh(pn) && Value() == n
    {
      pn := new word[WIDTH](_ => 0);
      new;
      Assign(n);
    }

    /** Assignment from a 64-bit number. */
    method Assign(n: nat)
      requires Valid() && n < Pow2(64)
      modifies pn
      ensures Value() == n
      ensures pn[0] == Low32(n) && forall k :: 2 <= k < WIDTH ==> pn[k] == 0
    {
      Pow64();
      pn[0] := Low32(n);
      pn[1] := High32(n);
      for i := 2 to WIDTH
        invariant pn[0] == Low32(n) && pn[1] == High32(n)
        invariant forall k :: 2 <= k < i ==> pn[k] == 0
      {
        pn[i] := 0;
      }
      TwoWords(pn[..]);
    }

    /** The unary minus: complement every word, then add one. */
    method Negated() returns (r: BaseUint)
      requires Valid()
      ensures fresh(r) && r.Valid() && fresh(r.pn) && r.Value() == Wrap(0 - Value())
    {
      r := new BaseUint.Zero();
      for i := 0 to WIDTH
        invariant Val(r.pn[..i]) + Val(pn[..i]) + 1 == BPow(i)
      {
        ghost var t := r.pn[..];
        var w: word := B - 1 - pn[i];
        ValPrefix(pn[..], i);
        r.pn[i] := w;
        assert r.pn[..i] == t[..i];
        ValPrefix(r.pn[..], i);
        assert pn[..][..i] == pn[..i] && pn[..][..i + 1] == pn[..i + 1];
        assert r.pn[..][..i] == r.pn[..i] && r.pn[..][..i + 1] == r.pn[..i + 1];
        ComplementStep(w, pn[i], i);
      }
      assert r.pn[..WIDTH] == r.pn[..] && pn[..WIDTH] == pn[..];
      ghost var c := Val(r.pn[..]);
      r.Increment();
      NegateMod(Val(pn[..]), c);
    }

    method Increment()
      requires Valid()
      modifies pn
      ensures Value() == Wrap(old(Value()) + 1)
    {
      ghost var x := pn[..];
      ghost var i, done, left := RippleUp();
      if left { Carried(done, x, i, 1, 1); } else { Carried(done, x, i, 1, 0); }
    }

    /** One is carried up to the first word that does not overflow. */
    method RippleUp() returns (ghost i: nat, ghost done: seq<word>, ghost left: bool)
      requires Valid()
      modifies pn
      ensures Halfway(pn[..], done, old(pn[..]), i) && (left ==> i == WIDTH)
      ensures Val(done) + (if left then BPow(i) else 0) == Val(old(pn[..])[..i]) + 1
    {
      ghost var x := pn[..];
      done, left := [], true;
      var k := 0;
      while k < WIDTH
        invariant k <= WIDTH && left && Halfway(pn[..], done, x, k) && Val(done) + BPow(k) == Val(x[..k]) + 1
      {
        var w: word := if pn[k] == B - 1 then 0 else pn[k] + 1;
        Onward(pn[..], done, x, k, w);
        IncrementStep(done, x, k, w);
        pn[k] := w;
        done, i := done + [w], k + 1;
        if w != 0 {
          left := false;
          return;
        }
        k := k + 1;
      }
      i := k;
    }

    method Decrement()
      requires Valid()
      modifies pn
      ensures Value() == Wrap(old(Value()) - 1)
    {
      ghost var x := pn[..];
      ghost var i, done, left := RippleDown();
      if left { Carried(done, x, i, -1, -1); } else { Carried(done, x, i, -1, 0); }
    }

    /** One is borrowed from the first word that is not zero. */
    method RippleDown() returns (ghost i: nat, ghost done: seq<word>, ghost left: bool)
      requires Valid()
      modifies pn
      ensures Halfway(pn[..], done, old(pn[..]), i) && (left ==> i == WIDTH)
      ensures Val(done) - (if left then BPow(i) else 0) == Val(old(pn[..])[..i]) - 1
    {
      ghost var x := pn[..];
      done, left := [], true;
      var k := 0;
      while k < WIDTH
        invariant k <= WIDTH && left && Halfway(pn[..], done, x, k) && Val(done) - BPow(k) == Val(x[..k]) - 1
      {
        var w: word := if pn[k] == 0 then B - 1 else pn[k] - 1;
        Onward(pn[..], done, x, k, w);
        DecrementStep(done, x, k, w);
        pn[k] := w;
        done, i := done + [w], k + 1;
        if w != B - 1 {
          left := false;
          return;
        }
        k := k + 1;
      }
      i := k;
    }

    method SubAssign(b: BaseUint)
      requires Valid() && b.Valid()
      modifies pn
      ensures Value() == Wrap(old(Value()) - old(b.Value()))
    {
      ghost var x: int, y: int := Value(), b.Value();
      var m := b.Negated();
      ghost var z := m.Value();
      AddAssign(m);
      SubMod(x, y, z, Value());
    }

    method MulAssign32(b32: word)
      requires Valid()
      modifies pn
      ensures Value() == Wrap(old(Value()) * b32)
    {
      ghost var x, done := pn[..], [];
      var carry: nat := 0;
      for i := 0 to WIDTH
        invariant carry < B && Halfway(pn[..], done, x, i)
        invariant Val(done) + carry * BPow(i) == Val(x[..i]) * b32
      {
        Positive(b32, pn[i]);
        var n: nat := carry + b32 * pn[i];
        ghost var w: word := Low32(n);
        Onward(pn[..], done, x, i, w);
        MulStep(done, x, carry, b32, i, n, w);
        done := done + [w];
        pn[i] := Low32(n);
        carry := High32(n);
      }
      AllDone(pn[..], done, x);
      Finish(done, Val(x) * b32, carry);
    }

    method CompareTo(b: BaseUint) returns (r: int)
      requires Valid() && b.Valid()
      ensures r == if Value() < b.Value() then -1 else if Value() > b.Value() then 1 else 0
    {
      ghost var x, y := pn[..], b.pn[..];
      for i := WIDTH downto 0
        invariant x[i..] == y[i..]
      {
        if pn[i] < b.pn[i] {
          ValLess(x, y, i);
          return -1;
        }
        if pn[i] > b.pn[i] {
          ValLess(y, x, i);
          return 1;
        }
      }
      r := 0;
    }

    method GetLow64() returns (r: nat)
      requires Valid()
      ensures r == Value() % Pow2(64)
    {
      r := pn[0] + pn[1] * B;
      Low64(pn[..]);
    }

    method Clear()
      requires Valid()
      modifies pn
      ensures forall t :: 0 <= t < WIDTH ==> pn[t] == 0
      ensures Value() == 0
    {
      for i := 0 to WIDTH
        invariant forall t :: 0 <= t < i ==> pn[t] == 0
      {
        pn[i] := 0;
      }
      ValZeros(pn[..]);
    }

    /** Or the two halves of a word, moved left by s bits, into the words at j and above it. */
    method OrLeft(x: word, j: nat, s: nat) returns (ghost q: nat)
      requires Valid() && s < 32 && Room(pn[..], j, s)
      modifies pn
      ensures Value() + q * Modulus() == old(Value()) + x * Pow2(s) * BPow(j)
      ensures Room(pn[..], j + 1, s)
    {
      ghost var was := pn[..];
      var hi, lo := HighPart(x, s), LowPart(x, s);
      WordShift(x, s);
      q := ShlStep(was, j, x * Pow2(s), hi, lo);
      if j + 1 < WIDTH && s != 0 {
        pn[j + 1] := BitOr(pn[j + 1], hi);
      }
      if j < WIDTH {
        OrFits(pn[j], lo, s);
        pn[j] := BitOr(pn[j], lo);
        assert pn[..] == ShlPut(was, j, hi, lo);
      }
    }

    method ShiftLeft(shift: nat)
      requires Valid()
      modifies pn
      ensures Value() == Wrap(old(Value()) * Pow2(shift))
    {
      var a := new BaseUint.Copy(this);
      ghost var x := a.pn[..];
      Clear();
      var k, s := shift / 32, shift % 32;
      ghost var q: nat := 0;
      ZeroTimes(Val(x[..0]), ShiftFactor(s, k));
      for i := 0 to WIDTH
        invariant a.pn[..] == x && Room(pn[..], i + k, s)
        invariant Val(pn[..]) + q * Modulus() == Val(x[..i]) * ShiftFactor(s, k)
      {
        q := ShiftWord(a.pn[i], i, k, s, x, q);
      }
      assert x[..WIDTH] == x;
      ShiftedAll(x, shift, k, s, pn[..], q);
    }

    /** The body of that loop. */
    method ShiftWord(w: word, i: nat, k: nat, s: nat, ghost x: seq<word>, ghost q: nat) returns (ghost r: nat)
      requires Valid() && s < 32 && |x| == WIDTH && i < WIDTH && w == x[i] && Room(pn[..], i + k, s)
      requires Val(pn[..]) + q * Modulus() == Val(x[..i]) * ShiftFactor(s, k)
      modifies pn
      ensures Room(pn[..], i + 1 + k, s)
      ensures Val(pn[..]) + r * Modulus() == Val(x[..i + 1]) * ShiftFactor(s, k)
    {
      ghost var v := Value();
      ghost var more := OrLeft(w, i + k, s);
      ValPrefix(x, i);
      r := q + more;
      ShlSum(v, Val(pn[..]), q, more, r, Val(x[..i]), x[i], Val(x[..i + 1]), i, s, k);
    }

    /** Or into word i a part that has no bit in common with it. */
    method OrInto(i: nat, v: word)
      requires Valid() && i < WIDTH && BitOr(pn[i], v) == pn[i] + v < B
      modifies pn
      ensures pn[..] == old(pn[..])[i := old(pn[i]) + v] && Value() == old(Value()) + v * BPow(i)
    {
      ValAdd(pn[..], i, v);
      pn[i] := BitOr(pn[i], v);
    }

    /** Or the two halves of a word, moved right by s bits, into the words at j and below it. */
    method OrRight(x: word, j: int, s: nat)
      requires Valid() && s < 32 && j < WIDTH
      requires 0 <= j ==> pn[j] == 0
      requires 0 <= j - 1 ==> pn[j - 1] < Pow2(32 - s)
      modifies pn
      ensures 0 <= j ==> pn[j] < Pow2(32 - s)
      ensures forall t :: 0 <= t < WIDTH && t > j ==> pn[t] == old(pn[t])
      ensures j < 0 ==> Value() == old(Value())
      ensures j == 0 ==> Value() == old(Value()) + HighPart(x, 32 - s)
      ensures j > 0 ==> Value() == old(Value()) + HighPart(x, 32 - s) * BPow(j) + LowPart(x, 32 - s) * BPow(j - 1)
    {
      if j < 0 { return; }
      var hi, lo := HighPart(x, 32 - s), LowPart(x, 32 - s);
      WordShift(x, 32 - s);
      if j - 1 >= 0 && s != 0 {
        OrFits(pn[j - 1], lo, 32 - s);
        OrInto(j - 1, lo);
      } else if j - 1 >= 0 {
        NoShift(x);
        ZeroTimes(lo, BPow(j - 1));
      }
      OrZero(hi);
      OrInto(j, hi);
      assert BPow(0) == 1;
    }

    method ShiftRight(shift: nat)
      requires Valid()
      modifies pn
      ensures Value() == old(Value()) / Pow2(shift)
    {
      var a := new BaseUint.Copy(this);
      ghost var x := a.pn[..];
      Clear();
      var k, s := shift / 32, shift % 32;
      ghost var rem: nat := 0;
      for i := 0 to WIDTH
        invariant a.pn[..] == x
        invariant rem < ShiftFactor(s, k)
        invariant i <= k ==> rem == Val(x[..i]) && Val(pn[..]) == 0
        invariant Val(x[..i]) == Val(pn[..]) * ShiftFactor(s, k) + rem
        invariant forall t :: 0 <= t < WIDTH && t >= i - k ==> pn[t] == 0
        invariant 0 <= i - k - 1 ==> pn[i - k - 1] < Pow2(32 - s)
      {
        ghost var v := Val(pn[..]);
        OrRight(a.pn[i], i - k, s);
        rem := ShrStep(v, Val(pn[..]), x, i, s, k, rem);
      }
      assert x[..WIDTH] == x;
      DivUnique(Val(x), Pow2(shift), Val(pn[..]), rem);
    }

    /** One row of the schoolbook product: adds ax * b * B^j. Reading b while it is the receiver
        itself, all of whose words are zero, adds nothing. */
    method AddRow(ax: word, b: BaseUint, j: nat) returns (ghost q: nat)
      requires Valid() && b.Valid() && j < WIDTH
      requires b.pn == pn ==> forall t :: 0 <= t < WIDTH ==> pn[t] == 0
      modifies pn
      ensures b.pn == pn ==> forall t :: 0 <= t < WIDTH ==> pn[t] == 0
      ensures b.pn != pn ==> Value() + q * Modulus() == old(Value()) + ax * b.Value() * BPow(j)
    {
      ghost var y, start := b.pn[..], Value();
      var carry: nat := 0;
      var i := 0;
      while i + j < WIDTH
        invariant i <= WIDTH - j && carry < B
        invariant b.pn == pn ==> carry == 0 && forall t :: 0 <= t < WIDTH ==> pn[t] == 0
        invariant b.pn != pn ==> b.pn[..] == y
        invariant b.pn != pn ==> Val(pn[..]) + carry * BPow(i + j) == start + ax * Val(y[..i]) * BPow(j)
      {
        ghost var was := pn[..];
        Positive(ax, b.pn[i]);
        ProductBound(ax, b.pn[i]);
        var n: nat := carry + pn[i + j] + ax * b.pn[i];
        assert n < B * B;
        var w: word := Low32(n);
        if b.pn != pn { RowStep(was, y, carry, ax, i, j, start, n); }
        pn[i + j] := w;
        carry := High32(n);
        assert b.pn != pn ==> pn[..] == was[i + j := w];
        i := i + 1;
      }
      q := 0;
      if b.pn != pn { q := RowEnd(Val(pn[..]), start, ax, y, j, carry); }
    }

    method MulAssign(b: BaseUint)
      requires Valid() && b.Valid()
      modifies pn
      ensures Value() == if b.pn == pn then 0 else Wrap(old(Value()) * old(b.Value()))
    {
      var a := new BaseUint.Copy(this);
      ghost var x, y := a.pn[..], b.pn[..];
      Clear();
      ghost var q: nat := 0;
      for j := 0 to WIDTH
        invariant a.pn[..] == x
        invariant b.pn == pn ==> forall t :: 0 <= t < WIDTH ==> pn[t] == 0
        invariant b.pn != pn ==> b.pn[..] == y && Val(pn[..]) + q * Modulus() == Val(x[..j]) * Val(y)
      {
        ghost var more := AddRow(a.pn[j], b, j);
        ValPrefix(x, j);
        MulDist(Val(x[..j]), x[j] * BPow(j), Val(y));
        MulSwap(x[j], BPow(j), Val(y));
        MulDist(q, more, Modulus());
        q := q + more;
      }
      assert x[..WIDTH] == x;
      if b.pn == pn {
        ValZeros(pn[..]);
      } else {
        ValBound(pn[..]);
        Reduced(Val(x) * Val(y), Val(pn[..]), q);
      }
    }

    /** The position of the highest bit set, plus one; zero for zero. */
    method BitLength() returns (n: nat)
      requires Valid()
      ensures n == 0 <==> Value() == 0
      ensures n > 0 ==> Pow2(n - 1) <= Value() < Pow2(n)
      ensures n <= 256
    {
      ghost var x := pn[..];
      for pos := WIDTH downto 0
        invariant forall t :: pos <= t < WIDTH ==> x[t] == 0
      {
        if pn[pos] != 0 {
          Pow32();
          for nbits := 32 downto 1
            invariant pn[pos] < Pow2(nbits)
          {
            if TestBit(pn[pos], nbits) {
              TopBit(pn[pos], nbits);
              TopWord(x, pos, nbits);
              return 32 * pos + nbits + 1;
            }
            NotTopBit(pn[pos], nbits);
          }
          TopWord(x, pos, 0);
          return 32 * pos + 1;
        }
      }
      ValZeros(x);
      n := 0;
    }

    method SetBit(bit: nat)
      requires Valid() && bit < 256 && NoBitsBelow(pn[..], bit + 1)
      modifies pn
      ensures Value() == old(Value()) + Pow2(bit)
      ensures NoBitsBelow(pn[..], bit)
    {
      ghost var x := pn[..];
      SetBitStep(x, bit, bit / 32, bit % 32);
      pn[bit / 32] := BitOr(pn[bit / 32], Pow2(bit % 32));
      assert pn[..] == x[bit / 32 := x[bit / 32] + Pow2(bit % 32)];
    }

    /** One turn of the long division: the bit of the quotient at shift. */
    method DivideBit(num: BaseUint, div: BaseUint, shift: nat, ghost y: nat)
      requires Valid() && num.Valid() && div.Valid() && shift < 256
      requires pn != num.pn && pn != div.pn && num.pn != div.pn
      requires div.Value() == y * Pow2(shift) && num.Value() < y * Pow2(shift + 1)
      requires NoBitsBelow(pn[..], shift + 1)
      modifies pn, num.pn, div.pn
      ensures Value() * y + num.Value() == old(Value() * y + num.Value())
      ensures num.Value() < y * Pow2(shift)
      ensures NoBitsBelow(pn[..], shift)
      ensures shift > 0 ==> div.Value() == y * Pow2(shift - 1)
    {
      var c := num.CompareTo(div);
      ghost var q, n: int, d: int := Value(), num.Value(), div.Value();
      FewerBits(pn[..], shift);
      if c >= 0 {
        ValBound(num.pn[..]);
        num.SubAssign(div);
        NoWrap(n - d);
        SetBit(shift);
      }
      DivideStep(q, y, n, shift, Value(), num.Value());
      div.ShiftRight(1);
      if shift > 0 { Halve(y, shift); }
    }

    /** Division by shifting and subtracting. Dividing by zero raises an error, with the receiver
        already cleared. */
    method DivAssign(b: BaseUint) returns (ok: bool)
      requires Valid() && b.Valid()
      modifies pn
      ensures ok <==> old(b.Value()) != 0
      ensures ok ==> Value() == old(Value()) / old(b.Value())
      ensures !ok ==> Value() == 0
    {
      ghost var x, y := Value(), b.Value();
      var div := new BaseUint.Copy(b);
      var num := new BaseUint.Copy(this);
      Clear();
      var numBits := num.BitLength();
      var divBits := div.BitLength();
      if divBits == 0 { return false; }
      if divBits > numBits {
        QuotientZero(x, y, numBits, divBits);
        return true;
      }
      var shift: int := numBits - divBits;
      Aligned(x, y, numBits, divBits, shift);
      div.ShiftLeft(shift);
      NoBitsInZero(pn[..], shift + 1);
      ZeroTimes(Value(), y);
      DivideDown(num, div, shift, x, y);
      DivideEnd(x, y, Val(pn[..]), num.Value());
      return true;
    }

    /** The loop of the long division, from the highest bit of the quotient down. */
    method DivideDown(num: BaseUint, div: BaseUint, top: nat, ghost x: nat, ghost y: nat)
      requires Valid() && num.Valid() && div.Valid() && top < 256
      requires pn != num.pn && pn != div.pn && num.pn != div.pn
      requires div.Value() == y * Pow2(top) && num.Value() < y * Pow2(top + 1)
      requires NoBitsBelow(pn[..], top + 1) && x == Value() * y + num.Value()
      modifies pn, num.pn, div.pn
      ensures x == Value() * y + num.Value() && num.Value() < y * Pow2(0)
    {
      var shift: int := top;
      while shift >= 0
        invariant -1 <= shift < 256
        invariant shift >= 0 ==> div.Value() == y * Pow2(shift)
        invariant x == Value() * y + num.Value()
        invariant num.Value() < y * Pow2(shift + 1)
        invariant NoBitsBelow(pn[..], shift + 1)
      {
        DivideBit(num, div, shift, y);
        shift := shift - 1;
      }
    }
  }

  lemma Pow64()
    ensures Pow2(64) == B * B
  {
    Pow32();
    Pow2Add(32, 32);
  }

  lemma TwoWords(s: seq<word>)
    requires |s| == WIDTH && forall k :: 2 <= k < WIDTH ==> s[k] == 0
    ensures Val(s) == s[0] + s[1] * B
  {
    ValSplit(s, 2);
    ValZeros(s[2..]);
    FirstTwo(s);
  }

  lemma FirstTwo(s: seq<word>)
    requires |s| >= 2
    ensures Val(s[..2]) == s[0] + s[1] * B
  {
    ValPrefix(s, 0);
    ValPrefix(s, 1);
    assert s[..0] == [];
    assert BPow(0) == 1;
    assert BPow(1) == B * BPow(0);
  }

  lemma Low64(s: seq<word>)
    requires |s| == WIDTH
    ensures Val(s) % Pow2(64) == s[0] + s[1] * B
  {
    Pow64();
    ValSplit(s, 2);
    FirstTwo(s);
    assert BPow(2) == B * BPow(1);
    assert BPow(1) == B * BPow(0);
    DivUnique(Val(s), B * B, Val(s[2..]), s[0] + s[1] * B);
  }

  /** Numbers with the same words from `i` on differ by what their lower words differ by. */
  lemma Carried(low: seq<word>, x: seq<word>, i: nat, d: int, q: int)
    requires |low| == i <= |x| == WIDTH
    requires Val(low) + q * Modulus() == Val(x[..i]) + d
    ensures Val(low + x[i..]) == Wrap(Val(x) + d)
  {
    var s := low + x[i..];
    assert s[..i] == low && s[i..] == x[i..];
    ValSplit(s, i);
    ValSplit(x, i);
    ValBound(s);
    Reduced(Val(x) + d, Val(s), q);
  }

  lemma IncrementStep(done: seq<word>, x: seq<word>, i: nat, w: word)
    requires i == |done| < |x| && Val(done) + BPow(i) == Val(x[..i]) + 1
    requires w == if x[i] == B - 1 then 0 else x[i] + 1
    ensures Val(done + [w]) + (if w == 0 then BPow(i + 1) else 0) == Val(x[..i + 1]) + 1
  {
    ValSnoc(done, w);
    ValPrefix(x, i);
    var v: int := x[i];
    MulDist(v, 1, BPow(i));
  }

  lemma ComplementStep(w: word, x: word, i: nat)
    requires w == B - 1 - x
    ensures w * BPow(i) + x * BPow(i) + BPow(i) == BPow(i + 1)
  {
    MulDist(w, x, BPow(i));
    MulDist(w + x, 1, BPow(i));
  }

  lemma DecrementStep(done: seq<word>, x: seq<word>, i: nat, w: word)
    requires i == |done| < |x| && Val(done) - BPow(i) == Val(x[..i]) - 1
    requires w == if x[i] == 0 then B - 1 else x[i] - 1
    ensures Val(done + [w]) - (if w == B - 1 then BPow(i + 1) else 0) == Val(x[..i + 1]) - 1
  {
    ValSnoc(done, w);
    ValPrefix(x, i);
    var v: int := x[i];
    if v == 0 { MulDist(B - 1, 1, BPow(i)); } else { MulDist(v - 1, 1, BPow(i)); }
  }

  lemma NegateMod(x: nat, c: nat)
    requires c + x + 1 == Modulus()
    ensures Wrap(c + 1) == Wrap(0 - x)
  {
    if x == 0 {
      Reduced(c + 1, 0, 1);
      Reduced(0 - x, 0, 0);
    } else {
      Reduced(c + 1, c + 1, 0);
      Reduced(0 - x, c + 1, -1);
    }
  }

  lemma SubMod(x: int, y: int, z: nat, r: nat)
    requires z == Wrap(0 - y) && r == Wrap(x + z)
    ensures r == Wrap(x - y)
  {
    WrapIs(0 - y);
    WrapIs(x + z);
    WrapIs(x - y);
    AddMod(x, 0 - y, Modulus());
  }

  lemma AddMod(x: int, y: int, m: int)
    requires 0 < m
    ensures (x + y % m) % m == (x + y) % m
  {
    var q, r := y / m, y % m;
    assert y == q * m + r;
    var z := x + r;
    assert z == (z / m) * m + z % m;
    MulDist(z / m, q, m);
    DivUnique(x + y, m, z / m + q, z % m);
  }

  lemma ProductBound(x: word, y: word)
    ensures x * y <= (B - 1) * (B - 1)
  {
    MulLe(x, B - 1, y);
    MulLe(y, B - 1, B - 1);
  }

  lemma MulStep(done: seq<word>, x: seq<word>, c: nat, b: word, i: nat, n: nat, w: word)
    requires i == |done| < |x| && c < B
    requires Val(done) + c * BPow(i) == Val(x[..i]) * b
    requires n == c + b * x[i] && w == Low32(n)
    ensures Val(done + [w]) + High32(n) * BPow(i + 1) == Val(x[..i + 1]) * b
    ensures n < B * B && High32(n) < B
  {
    var a: int, p := x[i], BPow(i);
    ProductBound(b, x[i]);
    ValSnoc(done, w);
    ValPrefix(x, i);
    DigitStep(n, i);
    MulDist(c, b * a, p);
    MulAssoc(b, a, p);
    MulDist(Val(x[..i]), a * p, b);
  }

  /** What a shift by k words and s bits multiplies by. */
  function ShiftFactor(s: nat, k: nat): (f: nat)
    ensures f > 0
  {
    Pow2(s + 32 * k)
  }

  lemma ShiftFactorAt(s: nat, k: nat)
    ensures ShiftFactor(s, k) == Pow2(s) * BPow(k)
  {
    WordPow(k);
    Pow2Add(s, 32 * k);
  }

  /** A word moved left by s bits: what is carried into the next word, and what stays. */
  function HighPart(x: word, s: nat): (r: word)
    requires s <= 32
  {
    DivLe(x, Pow2(32 - s));
    x / Pow2(32 - s)
  }

  lemma DivLe(x: nat, m: nat)
    requires 0 < m
    ensures 0 <= x / m <= x
  {
    if x / m > x { MulLe(1, m, x / m); }
  }

  function LowPart(x: word, s: nat): (r: word)
    requires s <= 32
  {
    (x * Pow2(s)) % B
  }

  lemma WordShift(x: word, s: nat)
    requires s <= 32
    ensures x * Pow2(s) == HighPart(x, s) * B + LowPart(x, s)
    ensures HighPart(x, s) < Pow2(s) <= B
    ensures LowPart(x, s) % Pow2(s) == 0 && LowPart(x, s) <= B - Pow2(s)
    ensures LowPart(x, s) == (x % Pow2(32 - s)) * Pow2(s)
    ensures HighPart(x, s) * Pow2(32 - s) + x % Pow2(32 - s) == x
  {
    var p, t := Pow2(s), Pow2(32 - s);
    assert p * t == B by {
      Pow2Add(s, 32 - s);
      Pow32();
    }
    MulLe(1, t, p);
    DivMod(x, t);
    SplitProduct(x, p, t, HighPart(x, s), x % t);
  }

  lemma SplitProduct(x: word, p: nat, t: nat, h: nat, r: nat)
    requires p * t == B && 0 < p && 0 < t && x == h * t + r && r < t
    ensures x * p == h * B + r * p && h < p && 0 <= r * p <= B - p
    ensures (x * p) % B == r * p && (r * p) % p == 0
  {
    MulDist(h * t, r, p);
    MulAssoc(h, t, p);
    MulLe(r, t - 1, p);
    MulDist(t, -1, p);
    Positive(r, p);
    DivUnique(x * p, B, h, r * p);
    DivUnique(r * p, p, r, 0);
    if h >= p { MulLe(p, h, t); }
  }

  lemma DivMod(x: nat, m: nat)
    requires 0 < m
    ensures x == (x / m) * m + x % m
  {
  }

  lemma NoShift(x: word)
    ensures LowPart(x, 32) == 0
  {
    assert x * Pow2(32) == x * B by { Pow32(); }
    DivUnique(x * B, B, x, 0);
  }

  lemma OrFits(w: word, lo: word, s: nat)
    requires s <= 32 && w < Pow2(s) && lo % Pow2(s) == 0 && lo <= B - Pow2(s)
    ensures BitOr(w, lo) == w + lo < B
  {
    OrDisjoint(w, lo, s);
  }

  lemma OrZero(x: nat)
    ensures BitOr(0, x) == x
  {
    OrDisjoint(0, x, 0);
  }

  function ShlPut(p: seq<word>, j: nat, hi: word, lo: word): (r: seq<word>)
    requires |p| == WIDTH && j < WIDTH && p[j] + lo < B
  {
    (if j + 1 < WIDTH then p[j + 1 := hi] else p)[j := p[j] + lo]
  }

  lemma ShlStep(p: seq<word>, j: nat, n: nat, hi: word, lo: word) returns (q: nat)
    requires |p| == WIDTH && n == hi * B + lo
    requires j + 1 < WIDTH ==> p[j + 1] == 0
    requires j < WIDTH ==> p[j] + lo < B
    ensures j < WIDTH ==> Val(ShlPut(p, j, hi, lo)) + q * Modulus() == Val(p) + n * BPow(j)
    ensures j >= WIDTH ==> q * Modulus() == n * BPow(j)
  {
    MulDist(hi * B, lo, BPow(j));
    MulAssoc(hi, B, BPow(j));
    if j + 1 < WIDTH {
      ValAdd(p, j + 1, hi);
      ValAdd(p[j + 1 := hi], j, lo);
      q := 0;
    } else if j < WIDTH {
      ValAdd(p, j, lo);
      q := hi;
    } else {
      BPowAdd(j - WIDTH, WIDTH);
      Positive(n, BPow(j - WIDTH));
      q := n * BPow(j - WIDTH);
      MulAssoc(n, BPow(j - WIDTH), Modulus());
    }
  }

  /** How the remainder grows as the next word of x is shifted in. */
  lemma ShrStep(v: nat, w: nat, x: seq<word>, i: nat, s: nat, k: nat, rem: nat) returns (r: nat)
    requires |x| == WIDTH && s < 32 && i < WIDTH
    requires i < k ==> w == v
    requires i == k ==> w == v + HighPart(x[i], 32 - s)
    requires i > k ==> w == v + HighPart(x[i], 32 - s) * BPow(i - k) + LowPart(x[i], 32 - s) * BPow(i - k - 1)
    requires rem < ShiftFactor(s, k)
    requires i <= k ==> rem == Val(x[..i]) && v == 0
    requires Val(x[..i]) == v * ShiftFactor(s, k) + rem
    ensures r < ShiftFactor(s, k)
    ensures i + 1 <= k ==> r == Val(x[..i + 1]) && w == 0
    ensures Val(x[..i + 1]) == w * ShiftFactor(s, k) + r
  {
    ValPrefix(x, i);
    WordShift(x[i], 32 - s);
    if i < k {
      r := Val(x[..i + 1]);
      ValBound(x[..i + 1]);
      BelowFactor(i + 1, s, k);
    } else if i == k {
      ValBound(x[..i]);
      r := ShrFirst(rem, x[i], HighPart(x[i], 32 - s), x[i] % Pow2(s), s, k);
    } else {
      r := rem;
      ShrSum(v, w, x[i], HighPart(x[i], 32 - s), x[i] % Pow2(s), LowPart(x[i], 32 - s), s, i - k, k);
    }
  }

  lemma ShrFirst(rem: nat, x: nat, h: nat, low: nat, s: nat, k: nat) returns (r: nat)
    requires rem < BPow(k) && x == h * Pow2(s) + low && low < Pow2(s)
    ensures r < ShiftFactor(s, k) && rem + x * BPow(k) == h * ShiftFactor(s, k) + r
  {
    Positive(low, BPow(k));
    ShiftFactorAt(s, k);
    r := rem + low * BPow(k);
    FirstWord(x, h, low, Pow2(s), BPow(k));
    MulLe(low + 1, Pow2(s), BPow(k));
    MulDist(low, 1, BPow(k));
  }

  lemma FirstWord(x: nat, h: nat, low: nat, p: nat, b: nat)
    requires x == h * p + low
    ensures x * b == h * (p * b) + low * b
  {
    MulDist(h * p, low, b);
    MulAssoc(h, p, b);
  }

  /** The two places a word goes to when shifted right stand for the word in its old place. */
  lemma ShrSum(v: nat, w: nat, x: nat, h: nat, low: nat, lo: nat, s: nat, j: nat, k: nat)
    requires s < 32 && 0 < j && x == h * Pow2(s) + low && lo == low * Pow2(32 - s)
    requires w == v + h * BPow(j) + lo * BPow(j - 1)
    ensures w * ShiftFactor(s, k) == v * ShiftFactor(s, k) + x * BPow(j + k)
  {
    var f, c, p, b := ShiftFactor(s, k), BPow(k), Pow2(s), BPow(j + k);
    ShiftFactorAt(s, k);
    BPowAdd(j, k);
    BPowAdd(j - 1, k);
    assert lo * p == low * B by {
      Pow2Add(32 - s, s);
      Pow32();
      MulAssoc(low, Pow2(32 - s), p);
    }
    assert lo * BPow(j - 1) * f == low * b by {
      Regroup(lo, BPow(j - 1), p, c);
      MulAssoc(low, B, BPow(j - 1 + k));
      assert b == B * BPow(j - 1 + k) by { assert j + k - 1 == j - 1 + k; }
    }
    assert h * BPow(j) * f == h * p * b by { Regroup(h, BPow(j), p, c); }
    MulDist(v + h * BPow(j), lo * BPow(j - 1), f);
    MulDist(v, h * BPow(j), f);
    MulDist(h * p, low, b);
  }

  lemma ShiftedAll(x: seq<word>, shift: nat, k: nat, s: nat, p: seq<word>, q: nat)
    requires |p| == WIDTH && shift == s + 32 * k && Val(p) + q * Modulus() == Val(x) * ShiftFactor(s, k)
    ensures Val(p) == Wrap(Val(x) * Pow2(shift))
  {
    ValBound(p);
    Reduced(Val(x) * Pow2(shift), Val(p), q);
  }

  lemma ShlSum(v: nat, w: nat, q: nat, more: nat, r: nat, a: nat, x: nat, next: nat, i: nat, s: nat, k: nat)
    requires v + q * Modulus() == a * ShiftFactor(s, k) && r == q + more && next == a + x * BPow(i)
    requires w + more * Modulus() == v + x * Pow2(s) * BPow(i + k)
    ensures w + r * Modulus() == next * ShiftFactor(s, k)
  {
    BPowAdd(i, k);
    ShiftFactorAt(s, k);
    MulDist(a, x * BPow(i), ShiftFactor(s, k));
    Regroup(x, BPow(i), Pow2(s), BPow(k));
    MulDist(q, more, Modulus());
  }

  lemma Regroup(x: int, b: int, s: int, k: int)
    ensures (x * b) * (s * k) == (x * s) * (b * k)
  {
    MulAssoc(x, b, s * k);
    MulAssoc(b, s, k);
    MulAssoc(s, b, k);
    MulAssoc(x, s, b * k);
  }

  lemma {:induction false} BelowFactor(i: nat, s: nat, k: nat)
    requires i <= k
    ensures BPow(i) <= ShiftFactor(s, k)
  {
    var d := k - i;
    BPowAdd(i, d);
    ShiftFactorAt(s, k);
    MulLe(1, BPow(d), BPow(i));
    MulLe(1, Pow2(s), BPow(k));
  }

  lemma ShiftedProduct(a: int, y: int, yi: int, bi: int, bj: int)
    ensures a * (y + yi * bi) * bj == a * y * bj + (a * yi) * (bi * bj)
  {
    assert a * (y + yi * bi) == a * y + a * (yi * bi);
    MulDist(a * y, a * (yi * bi), bj);
    MulAssoc(a, yi, bi);
    MulAssoc(a * yi, bi, bj);
  }

  lemma RowStep(p: seq<word>, y: seq<word>, carry: nat, ax: word, i: nat, j: nat, start: nat, n: nat)
    requires |p| == |y| == WIDTH && i + j < WIDTH
    requires Val(p) + carry * BPow(i + j) == start + ax * Val(y[..i]) * BPow(j)
    requires n == carry + p[i + j] + ax * y[i]
    ensures Val(p[i + j := Low32(n)]) + High32(n) * BPow(i + j + 1) == start + ax * Val(y[..i + 1]) * BPow(j)
  {
    var w: word := Low32(n);
    ValSet(p, i + j, w);
    DigitStep(n, i + j);
    ValPrefix(y, i);
    BPowAdd(i, j);
    ShiftedProduct(ax, Val(y[..i]), y[i], BPow(i), BPow(j));
    RowSum(w, High32(n), carry, p[i + j], ax * y[i], n, BPow(i + j), BPow(i + j + 1));
  }

  lemma RowSum(w: int, up: int, carry: int, old_: int, prod: int, n: int, b: int, bb: int)
    requires n == carry + old_ + prod && w * b + up * bb == n * b
    ensures (w - old_) * b + up * bb == carry * b + prod * b
  {
    MulDist(w, 0 - old_, b);
    MulDist(carry + old_, prod, b);
    MulDist(carry, old_, b);
  }

  /** What a row leaves out is a multiple of 2^256. */
  lemma RowEnd(v: nat, start: nat, ax: word, y: seq<word>, j: nat, carry: nat) returns (q: nat)
    requires |y| == WIDTH && j < WIDTH
    requires v + carry * Modulus() == start + ax * Val(y[..WIDTH - j]) * BPow(j)
    ensures v + q * Modulus() == start + ax * Val(y) * BPow(j)
  {
    var hi := Val(y[WIDTH - j..]);
    Positive(ax, hi);
    q := carry + ax * hi;
    ValSplit(y, WIDTH - j);
    BPowAdd(WIDTH - j, j);
    ShiftedProduct(ax, Val(y[..WIDTH - j]), hi, BPow(WIDTH - j), BPow(j));
    MulDist(carry, ax * hi, Modulus());
  }

  lemma MulSwap(x: int, y: int, z: int)
    ensures x * y * z == x * z * y
  {
    MulAssoc(x, y, z);
    MulAssoc(x, z, y);
  }

  lemma TopBit(x: word, n: nat)
    requires TestBit(x, n) && x < Pow2(n + 1)
    ensures Pow2(n) <= x
  {
    if x < Pow2(n) { DivUnique(x, Pow2(n), 0, x); }
  }

  lemma NotTopBit(x: word, n: nat)
    requires x < Pow2(n + 1) && !TestBit(x, n)
    ensures x < Pow2(n)
  {
    if x >= Pow2(n) { DivUnique(x, Pow2(n), 1, x - Pow2(n)); }
  }

  lemma TopWord(x: seq<word>, pos: nat, n: nat)
    requires |x| == WIDTH && pos < WIDTH && n < 32
    requires forall t :: pos < t < WIDTH ==> x[t] == 0
    requires Pow2(n) <= x[pos] < Pow2(n + 1)
    ensures Pow2(32 * pos + n) <= Val(x) < Pow2(32 * pos + n + 1)
  {
    ValSplit(x, pos + 1);
    ValZeros(x[pos + 1..]);
    ValPrefix(x, pos);
    ValBound(x[..pos]);
    ShiftFactorAt(n, pos);
    ShiftFactorAt(n + 1, pos);
    Between(Val(x[..pos]), x[pos], Pow2(n), Pow2(n + 1), BPow(pos));
  }

  lemma Between(low: nat, w: nat, p: nat, pp: nat, b: nat)
    requires low < b && p <= w < pp
    ensures p * b <= low + w * b < pp * b
  {
    MulLe(p, w, b);
    MulLe(w + 1, pp, b);
    MulDist(w, 1, b);
  }

  lemma QuotientZero(x: nat, y: nat, xBits: nat, yBits: nat)
    requires xBits < yBits && (xBits == 0 <==> x == 0) && (xBits > 0 ==> x < Pow2(xBits))
    requires Pow2(yBits - 1) <= y
    ensures x / y == 0
  {
    Pow2Le(xBits, yBits - 1);
    DivUnique(x, y, 0, x);
  }

  lemma ModulusIs()
    ensures Modulus() == Pow2(256)
  {
    WordPow(WIDTH);
  }

  lemma NoWrap(x: int)
    requires 0 <= x < Modulus()
    ensures Wrap(x) == x
  {
    Reduced(x, x, 0);
  }

  lemma Aligned(x: nat, y: nat, xBits: nat, yBits: nat, d: nat)
    requires 0 < yBits <= xBits <= 256 && d == xBits - yBits
    requires x < Pow2(xBits) && Pow2(yBits - 1) <= y < Pow2(yBits)
    ensures Wrap(y * Pow2(d)) == y * Pow2(d)
    ensures x < y * Pow2(d + 1)
  {
    AlignedBelow(y, xBits, yBits, d);
    AlignedAbove(x, y, xBits, yBits - 1, d + 1);
  }

  lemma AlignedBelow(y: nat, xBits: nat, yBits: nat, d: nat)
    requires xBits == yBits + d <= 256 && y < Pow2(yBits)
    ensures Wrap(y * Pow2(d)) == y * Pow2(d)
  {
    assert Pow2(xBits) == Pow2(yBits) * Pow2(d) by { Pow2Add(yBits, d); }
    MulLt(y, Pow2(yBits), Pow2(d));
    assert Pow2(xBits) <= Modulus() by {
      Pow2Le(xBits, 256);
      ModulusIs();
    }
    Positive(y, Pow2(d));
    NoWrap(y * Pow2(d));
  }

  lemma AlignedAbove(x: nat, y: nat, xBits: nat, yBits: nat, d: nat)
    requires xBits == yBits + d && x < Pow2(xBits) && Pow2(yBits) <= y
    ensures x < y * Pow2(d)
  {
    assert Pow2(xBits) == Pow2(yBits) * Pow2(d) by { Pow2Add(yBits, d); }
    MulLe(Pow2(yBits), y, Pow2(d));
  }

  /** No bit below position n is set. */
  predicate NoBitsBelow(s: seq<word>, n: nat) {
    && |s| == WIDTH
    && (forall t :: 0 <= t < WIDTH && t < n / 32 ==> s[t] == 0)
    && (n / 32 < WIDTH ==> s[n / 32] % Pow2(n % 32) == 0)
  }

  lemma NoBitsInZero(s: seq<word>, n: nat)
    requires |s| == WIDTH && forall t :: 0 <= t < WIDTH ==> s[t] == 0
    ensures NoBitsBelow(s, n)
  {
    DivUnique(0, Pow2(n % 32), 0, 0);
  }

  lemma FewerBits(s: seq<word>, n: nat)
    requires n < 256 && NoBitsBelow(s, n + 1)
    ensures s[n / 32] % Pow2(n % 32 + 1) == 0
    ensures NoBitsBelow(s, n)
  {
    FewerBitsAt(s, n / 32, n % 32);
  }

  lemma FewerBitsAt(s: seq<word>, w: nat, b: nat)
    requires |s| == WIDTH && w < WIDTH && b < 32
    requires forall t :: 0 <= t < w ==> s[t] == 0
    requires if b == 31 then s[w] == 0 else s[w] % Pow2(b + 1) == 0
    ensures s[w] % Pow2(b + 1) == 0 && s[w] % Pow2(b) == 0
  {
    if b == 31 {
      DivUnique(0, Pow2(b + 1), 0, 0);
      DivUnique(0, Pow2(b), 0, 0);
    } else {
      HalfModulus(s[w], b);
    }
  }

  lemma HalfModulus(x: nat, s: nat)
    requires x % Pow2(s + 1) == 0
    ensures x % Pow2(s) == 0
  {
    var q := x / Pow2(s + 1);
    assert x == q * Pow2(s + 1);
    MulAssoc(q, 2, Pow2(s));
    DivUnique(x, Pow2(s), q * 2, 0);
  }

  lemma SetBitStep(s: seq<word>, bit: nat, i: nat, b: nat)
    requires bit < 256 && i == bit / 32 && b == bit % 32 && NoBitsBelow(s, bit + 1)
    ensures BitOr(s[i], Pow2(b)) == s[i] + Pow2(b) < B
    ensures Val(s[i := s[i] + Pow2(b)]) == Val(s) + Pow2(bit)
    ensures NoBitsBelow(s[i := s[i] + Pow2(b)], bit)
  {
    FewerBits(s, bit);
    SetBitAt(s, i, b, bit);
  }

  lemma SetBitAt(s: seq<word>, i: nat, b: nat, bit: nat)
    requires |s| == WIDTH && i < WIDTH && b < 32 && bit == b + 32 * i
    requires s[i] % Pow2(b + 1) == 0 && s[i] % Pow2(b) == 0
    ensures BitOr(s[i], Pow2(b)) == s[i] + Pow2(b) < B
    ensures Val(s[i := s[i] + Pow2(b)]) == Val(s) + Pow2(bit)
    ensures (s[i] + Pow2(b)) % Pow2(b) == 0
  {
    assert BitOr(s[i], Pow2(b)) == s[i] + Pow2(b) by { OrDisjoint(Pow2(b), s[i], b + 1); }
    RoomAbove(s[i], b);
    ValAdd(s, i, Pow2(b));
    assert Pow2(bit) == Pow2(b) * BPow(i) by { ShiftFactorAt(b, i); }
    OneMore(s[i], Pow2(b));
  }

  lemma OneMore(x: nat, p: nat)
    requires 0 < p && x % p == 0
    ensures (x + p) % p == 0
  {
    var q := x / p;
    DivMod(x, p);
    MulDist(q, 1, p);
    DivUnique(x + p, p, q + 1, 0);
  }

  lemma RoomAbove(x: word, b: nat)
    requires b < 32 && x % Pow2(b + 1) == 0
    ensures x + Pow2(b) < B
  {
    var m, t := Pow2(b + 1), Pow2(31 - b);
    assert t * m == B by {
      Pow2Add(31 - b, b + 1);
      Pow32();
    }
    RoomForOne(x, m, t);
  }

  lemma RoomForOne(x: nat, m: nat, t: nat)
    requires 0 < m && x % m == 0 && x < t * m
    ensures x + m <= t * m
  {
    var q := x / m;
    DivMod(x, m);
    if q >= t { MulLe(t, q, m); }
    MulLe(q + 1, t, m);
    MulDist(q, 1, m);
  }

  lemma DivideStep(q: nat, y: nat, n: nat, shift: nat, qq: nat, nn: nat)
    requires n < y * Pow2(shift + 1)
    requires if n >= y * Pow2(shift) then qq == q + Pow2(shift) && nn == n - y * Pow2(shift) else qq == q && nn == n
    ensures qq * y + nn == q * y + n
    ensures nn < y * Pow2(shift)
  {
    MulDist(q, Pow2(shift), y);
    assert y * (2 * Pow2(shift)) == 2 * (y * Pow2(shift)) by {
      MulAssoc(y, 2, Pow2(shift));
      MulAssoc(2, y, Pow2(shift));
    }
  }

  lemma DivideEnd(x: nat, y: nat, q: nat, r: nat)
    requires x == q * y + r && r < y * Pow2(0)
    ensures x / y == q
  {
    assert y * 1 == y;
    DivUnique(x, y, q, r);
  }

  lemma ZeroTimes(x: int, y: int)
    requires x == 0
    ensures x * y == 0
  {
  }

  lemma Halve(y: nat, shift: nat)
    requires shift >= 1
    ensures (y * Pow2(shift)) / Pow2(1) == y * Pow2(shift - 1)
  {
    var h := y * Pow2(shift - 1);
    MulAssoc(y, Pow2(shift - 1), 2);
    assert y * Pow2(shift) == h * 2;
  }
}

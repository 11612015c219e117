/** The compact form of a coin record: a header code, a bitmask of the unspent outputs that drops
    its trailing zero bytes, the unspent outputs, and the height. */
module CoinsCodec {
  import opened Bits
  import opened Wrappers
  import opened Serial
  import opened Compressor
  import opened AmountLimits
  import opened CoinsData

  // ---- the bitmask ----

  /** A byte of the mask, its bits given lowest first. */
  function Pack(bs: seq<bool>): nat {
    if bs == [] then 0 else (if bs[0] then 1 else 0) + 2 * Pack(bs[1..])
  }

  lemma {:induction false} PackBound(bs: seq<bool>)
    ensures Pack(bs) < Pow2(|bs|)
  {
    if bs != [] { PackBound(bs[1..]); }
  }

  lemma {:induction false} PackBit(bs: seq<bool>, p: nat)
    requires p < |bs|
    ensures TestBit(Pack(bs), p) == bs[p]
  {
    if p > 0 {
      PackBit(bs[1..], p - 1);
      Halved(Pack(bs), p);
    } else {
      assert Pow2(0) == 1;
      assert Pack(bs) / 1 == Pack(bs);
    }
  }

  lemma Halved(x: nat, n: nat)
    requires n > 0
    ensures TestBit(x, n) == TestBit(x / 2, n - 1)
  {
    var p := Pow2(n - 1);
    var q, r := x / 2 / p, x / 2 % p;
    assert x / 2 == q * p + r;
    assert x == 2 * (q * p + r) + x % 2;
    assert 2 * (q * p) == q * (2 * p) by { MulAssoc(2, q, p); MulAssoc(q, 2, p); }
    DivUnique(x, 2 * p, q, 2 * r + x % 2);
  }

  lemma {:induction false} PackZero(bs: seq<bool>)
    ensures Pack(bs) == 0 <==> forall k :: 0 <= k < |bs| ==> !bs[k]
  {
    if bs != [] {
      PackZero(bs[1..]);
      if !bs[0] && Pack(bs[1..]) == 0 {
        assert forall k :: 0 <= k < |bs| ==> k == 0 || bs[k] == bs[1..][k - 1];
      }
      assert forall k :: 0 <= k < |bs| - 1 ==> bs[1..][k] == bs[k + 1];
    }
  }

  /** Whether output i is unspent; there is nothing unspent past the end. */
  predicate Avail(vout: seq<TxOut>, i: nat) { i < |vout| && !vout[i].IsNull() }

  /** The outputs of mask byte b: the first two have their bits in the header code. */
  function Eight(vout: seq<TxOut>, b: nat): (r: seq<bool>)
    ensures |r| == 8 && forall i :: 0 <= i < 8 ==> r[i] == Avail(vout, 2 + b * 8 + i)
  {
    seq(8, i requires 0 <= i < 8 => Avail(vout, 2 + b * 8 + i))
  }

  function MaskByte(vout: seq<TxOut>, b: nat): (r: byte) {
    PackBound(Eight(vout, b));
    assert Pow2(8) == 256;
    Pack(Eight(vout, b))
  }

  /** The mask bytes from b up to n. */
  function Mask(vout: seq<TxOut>, b: nat, n: nat): (r: seq<byte>)
    requires b <= n
    ensures |r| == n - b && forall k :: 0 <= k < n - b ==> r[k] == MaskByte(vout, b + k)
    decreases n - b
  {
    if b == n then [] else [MaskByte(vout, b)] + Mask(vout, b + 1, n)
  }

  function NonZero(m: seq<byte>): nat {
    if m == [] then 0 else (if m[0] != 0 then 1 else 0) + NonZero(m[1..])
  }

  lemma {:induction false} NonZeroSnoc(m: seq<byte>, x: byte)
    ensures NonZero(m + [x]) == NonZero(m) + (if x != 0 then 1 else 0)
  {
    if m != [] {
      NonZeroSnoc(m[1..], x);
      assert (m + [x])[1..] == m[1..] + [x];
    }
  }

  /** How many mask bytes there are, once trailing zero bytes are dropped. */
  predicate IsMaskSize(vout: seq<TxOut>, n: nat) {
    && (forall i :: 2 + 8 * n <= i < |vout| ==> vout[i].IsNull())
    && (n > 0 ==> MaskByte(vout, n - 1) != 0)
  }

  lemma ByteIsZero(vout: seq<TxOut>, b: nat)
    ensures MaskByte(vout, b) == 0 <==> forall i :: 2 + b * 8 <= i < 2 + b * 8 + 8 ==> !Avail(vout, i)
  {
    var e := Eight(vout, b);
    PackZero(e);
    if forall k :: 0 <= k < 8 ==> !e[k] {
      forall i | 2 + b * 8 <= i < 2 + b * 8 + 8
        ensures !Avail(vout, i)
      {
        assert !e[i - 2 - b * 8];
      }
    }
  }

  lemma MaskSizeUnique(vout: seq<TxOut>, m: nat, n: nat)
    requires IsMaskSize(vout, m) && IsMaskSize(vout, n)
    ensures m == n
  {
    if m < n { ByteIsZero(vout, n - 1); } else if n < m { ByteIsZero(vout, m - 1); }
  }

  method CalcMaskSize(vout: seq<TxOut>) returns (nBytes: nat, nNonzeroBytes: nat)
    ensures IsMaskSize(vout, nBytes) && nNonzeroBytes == NonZero(Mask(vout, 0, nBytes))
    ensures nBytes > 0 ==> 2 + 8 * (nBytes - 1) < |vout|
    ensures nNonzeroBytes > 0 <==> nBytes > 0
  {
    var nLastUsedByte := 0;
    nNonzeroBytes := 0;
    var b := 0;
    assert Mask(vout, 0, 0) == [];
    while 2 + b * 8 < |vout|
      invariant nLastUsedByte <= b && nNonzeroBytes == NonZero(Mask(vout, 0, b))
      invariant nNonzeroBytes == NonZero(Mask(vout, 0, nLastUsedByte))
      invariant forall i :: 2 + 8 * nLastUsedByte <= i < 2 + 8 * b ==> !Avail(vout, i)
      invariant nLastUsedByte > 0 ==> MaskByte(vout, nLastUsedByte - 1) != 0
      invariant nLastUsedByte > 0 ==> 2 + 8 * (nLastUsedByte - 1) < |vout|
      invariant nNonzeroBytes > 0 <==> nLastUsedByte > 0
    {
      var fZero := NoneOfEight(vout, b);
      OneMoreByte(vout, b, b + 1);
      if !fZero {
        nLastUsedByte := b + 1;
        nNonzeroBytes := nNonzeroBytes + 1;
      }
      b := b + 1;
    }
    nBytes := nLastUsedByte;
    forall i | 2 + 8 * nBytes <= i < |vout|
      ensures vout[i].IsNull()
    {
      assert !Avail(vout, i);
    }
  }

  /** The inner loop: whether none of the outputs of a mask byte is unspent. */
  method NoneOfEight(vout: seq<TxOut>, b: nat) returns (fZero: bool)
    ensures fZero <==> MaskByte(vout, b) == 0
    ensures fZero <==> forall i :: 2 + b * 8 <= i < 2 + b * 8 + 8 ==> !Avail(vout, i)
  {
    fZero := true;
    for i := 0 to 8
      invariant fZero <==> forall k :: 2 + b * 8 <= k < 2 + b * 8 + i ==> !Avail(vout, k)
    {
      if 2 + b * 8 + i < |vout| && !vout[2 + b * 8 + i].IsNull() {
        assert Avail(vout, 2 + b * 8 + i);
        fZero := false;
      }
    }
    ByteIsZero(vout, b);
  }

  lemma {:induction false} MaskSnoc(vout: seq<TxOut>, n: nat)
    ensures Mask(vout, 0, n + 1) == Mask(vout, 0, n) + [MaskByte(vout, n)]
  {
  }

  lemma {:induction false} OneMoreByte(vout: seq<TxOut>, b: nat, next: nat)
    requires next == b + 1
    ensures NonZero(Mask(vout, 0, next)) == NonZero(Mask(vout, 0, b)) + if MaskByte(vout, b) != 0 then 1 else 0
  {
    MaskSnoc(vout, b);
    NonZeroSnoc(Mask(vout, 0, b), MaskByte(vout, b));
  }

  // ---- the record ----

  function MaskSizeFrom(vout: seq<TxOut>, b: nat): nat {
    if b == 0 || MaskByte(vout, b - 1) != 0 then b else MaskSizeFrom(vout, b - 1)
  }

  function MaskSize(vout: seq<TxOut>): nat { MaskSizeFrom(vout, (|vout| + 5) / 8) }

  lemma {:induction false} MaskSizeIs(vout: seq<TxOut>, b: nat)
    requires forall i :: 2 + 8 * b <= i < |vout| ==> vout[i].IsNull()
    ensures IsMaskSize(vout, MaskSizeFrom(vout, b)) && MaskSizeFrom(vout, b) <= b
  {
    if b > 0 && MaskByte(vout, b - 1) == 0 {
      ByteIsZero(vout, b - 1);
      forall i | 2 + 8 * (b - 1) <= i < |vout|
        ensures vout[i].IsNull()
      {
        if i < 2 + 8 * b { assert !Avail(vout, i); }
      }
      MaskSizeIs(vout, b - 1);
    }
  }

  /** Coinbase flag, the first two outputs, and the number of non-zero mask bytes; the last is one
      less when neither of the first two outputs is unspent, for then there is at least one. */
  function Code(c: Coins): int {
    var first, second := Avail(c.vout, 0), Avail(c.vout, 1);
    8 * (NonZero(Mask(c.vout, 0, MaskSize(c.vout))) - (if first || second then 0 else 1))
    + (if c.fCoinBase then 1 else 0) + (if first then 2 else 0) + (if second then 4 else 0)
  }

  function EncodeOuts(vout: seq<TxOut>, i: nat, curve: Curve): seq<byte>
    decreases |vout| - i
  {
    if i >= |vout| then []
    else (if vout[i].IsNull() then [] else EncodeTxOut(vout[i], curve)) + EncodeOuts(vout, i + 1, curve)
  }

  function EncodeCoins(c: Coins, curve: Curve): seq<byte> {
    SignedVarInt(c.nVersion) + (SignedVarInt(Code(c)) + (Mask(c.vout, 0, MaskSize(c.vout)) +
    (EncodeOuts(c.vout, 0, curve) + SignedVarInt(c.nHeight))))
  }

  function Unpack(x: byte): (r: seq<bool>)
    ensures |r| == 8
  {
    seq(8, p requires 0 <= p < 8 => TestBit(x, p))
  }

  /** Mask bytes are read until as many non-zero ones were seen. */
  function ParseMask(d: seq<byte>, count: nat): Parsed<seq<bool>> {
    if count == 0 then Got([], d)
    else if d == [] then Fail
    else
      match ParseMask(d[1..], if d[0] != 0 then count - 1 else count)
      case Fail => Fail
      case Got(more, rest) => Got(Unpack(d[0]) + more, rest)
  }

  function ParseOuts(d: seq<byte>, avail: seq<bool>, i: nat, curve: Curve): Parsed<seq<TxOut>>
    decreases |avail| - i
  {
    if i >= |avail| then Got([], d)
    else if !avail[i] then
      match ParseOuts(d, avail, i + 1, curve)
      case Fail => Fail
      case Got(more, rest) => Got([NULL_OUT] + more, rest)
    else
      match ParseTxOut(d, curve)
      case Fail => Fail
      case Got(o, next) =>
        match ParseOuts(next, avail, i + 1, curve)
        case Fail => Fail
        case Got(more, rest) => Got([o] + more, rest)
  }

  function HeaderBits(nCode: nat): seq<bool> { [nCode / 2 % 2 == 1, nCode / 4 % 2 == 1] }

  function MaskCode(nCode: nat): nat { nCode / 8 + (if nCode / 2 % 4 != 0 then 0 else 1) }

  function ParseCoins(d: seq<byte>, curve: Curve): Parsed<Coins> {
    match ParseVarInt(d, 32)
    case Fail => Fail
    case Got(nVersion, d1) =>
      match ParseVarInt(d1, 32)
      case Fail => Fail
      case Got(nCode, d2) =>
        match ParseMask(d2, MaskCode(nCode))
        case Fail => Fail
        case Got(mask, d3) =>
          match ParseOuts(d3, HeaderBits(nCode) + mask, 0, curve)
          case Fail => Fail
          case Got(vout, d4) =>
            match ParseVarInt(d4, 32)
            case Fail => Fail
            case Got(nHeight, rest) =>
              Got(Coins(nCode % 2 == 1, Trim(vout), AsSigned(nHeight), AsSigned(nVersion)), rest)
  }

  // ---- reading what was written ----

  /** Output i as it comes back: a spent one has lost its script. */
  function Out(vout: seq<TxOut>, i: nat): TxOut {
    if Avail(vout, i) then vout[i].(nValue := AmountBack(vout[i].nValue)) else NULL_OUT
  }

  function Outs(vout: seq<TxOut>, i: nat, m: nat): (r: seq<TxOut>)
    requires i <= m
    ensures |r| == m - i && forall k :: 0 <= k < m - i ==> r[k] == Out(vout, i + k)
  {
    seq(m - i, k requires 0 <= k < m - i => Out(vout, i + k))
  }

  function Avails(vout: seq<TxOut>, i: nat, m: nat): (r: seq<bool>)
    requires i <= m
    ensures |r| == m - i && forall k :: 0 <= k < m - i ==> r[k] == Avail(vout, i + k)
  {
    seq(m - i, k requires 0 <= k < m - i => Avail(vout, i + k))
  }

  lemma UnpackMask(vout: seq<TxOut>, b: nat, from: nat, to: nat)
    requires from == 2 + 8 * b && to == from + 8
    ensures Unpack(MaskByte(vout, b)) == Avails(vout, from, to)
  {
    forall p | 0 <= p < 8
      ensures Unpack(MaskByte(vout, b))[p] == Avail(vout, 2 + 8 * b + p)
    {
      PackBit(Eight(vout, b), p);
    }
  }

  lemma {:induction false} LastCounts(vout: seq<TxOut>, b: nat, n: nat)
    requires b < n && MaskByte(vout, n - 1) != 0
    ensures NonZero(Mask(vout, b, n)) > 0
    decreases n - b
  {
    assert Mask(vout, b, n)[1..] == Mask(vout, b + 1, n);
    if b + 1 < n { LastCounts(vout, b + 1, n); }
  }

  /** The bytes of the mask from b on, which tell of the outputs from `from` up to `to`. */
  lemma {:induction false} ParseMaskEncoded(vout: seq<TxOut>, b: nat, n: nat, from: nat, to: nat, rest: seq<byte>)
    requires b <= n && (n > 0 ==> MaskByte(vout, n - 1) != 0) && from == 2 + 8 * b && to == 2 + 8 * n
    ensures ParseMask(Mask(vout, b, n) + rest, NonZero(Mask(vout, b, n))) == Got(Avails(vout, from, to), rest)
    decreases n - b
  {
    var m := Mask(vout, b, n);
    if b == n {
      assert m + rest == rest;
    } else {
      LastCounts(vout, b, n);
      ParseMaskEncoded(vout, b + 1, n, from + 8, to, rest);
      UnpackMask(vout, b, from, from + 8);
      MaskCons(vout, b, n, rest);
      ParseMaskStep(m + rest, m[0], m[1..] + rest, NonZero(m), NonZero(m[1..]), Avails(vout, from + 8, to), rest);
      AvailsSplit(vout, from, from + 8, to);
    }
  }

  lemma {:induction false} MaskCons(vout: seq<TxOut>, b: nat, n: nat, rest: seq<byte>)
    requires b < n
    ensures var m := Mask(vout, b, n);
            m[1..] == Mask(vout, b + 1, n) && m[0] == MaskByte(vout, b) && (m + rest)[1..] == m[1..] + rest
  {
    var m := Mask(vout, b, n);
    TailAppended(m, rest);
    assert m[1..] == Mask(vout, b + 1, n);
  }

  lemma {:induction false} TailAppended(s: seq<byte>, rest: seq<byte>)
    requires s != []
    ensures (s + rest)[1..] == s[1..] + rest
  {
  }

  lemma AvailsSplit(vout: seq<TxOut>, from: nat, mid: nat, to: nat)
    requires from <= mid <= to
    ensures Avails(vout, from, to) == Avails(vout, from, mid) + Avails(vout, mid, to)
  {
  }

  lemma ParseMaskStep(d: seq<byte>, x: byte, next: seq<byte>, count: nat, left: nat, more: seq<bool>, rest: seq<byte>)
    requires d != [] && d[0] == x && d[1..] == next && count > 0
    requires left == if x != 0 then count - 1 else count
    requires ParseMask(next, left) == Got(more, rest)
    ensures ParseMask(d, count) == Got(Unpack(x) + more, rest)
  {
  }

  lemma AllAvails(vout: seq<TxOut>, head: seq<bool>, m: nat)
    requires m >= 2 && head == Avails(vout, 0, 2)
    ensures head + Avails(vout, 2, m) == Avails(vout, 0, m)
  {
  }

  predicate AllEncodable(vout: seq<TxOut>) {
    forall i :: 0 <= i < |vout| && !vout[i].IsNull() ==> Encodable(vout[i])
  }

  lemma ParseOutStep(d: seq<byte>, avail: seq<bool>, i: nat, o: TxOut, next: seq<byte>, more: seq<TxOut>,
                     rest: seq<byte>, curve: Curve)
    requires i < |avail| && ParseOuts(next, avail, i + 1, curve) == Got(more, rest)
    requires if avail[i] then ParseTxOut(d, curve) == Got(o, next) else d == next && o == NULL_OUT
    ensures ParseOuts(d, avail, i, curve) == Got([o] + more, rest)
  {
  }

  lemma {:induction false} OutsCons(vout: seq<TxOut>, i: nat, m: nat, more: seq<TxOut>) returns (o: TxOut)
    requires i < m && more == Outs(vout, i + 1, m)
    ensures Outs(vout, i, m) == [o] + more && IsOut(vout, i, o)
  {
    o := Out(vout, i);
  }

  predicate IsOut(vout: seq<TxOut>, i: nat, o: TxOut) { (!Avail(vout, i) ==> o == NULL_OUT) && o == Out(vout, i) }

  lemma OutEncoded(vout: seq<TxOut>, i: nat, rest: seq<byte>, next: seq<byte>, curve: Curve, o: TxOut)
    requires AllEncodable(vout) && Lawful(curve) && IsOut(vout, i, o) && next == EncodeOuts(vout, i + 1, curve) + rest
    ensures var d := EncodeOuts(vout, i, curve) + rest;
            if Avail(vout, i) then ParseTxOut(d, curve) == Got(o, next) else d == next && o == NULL_OUT
  {
    if Avail(vout, i) {
      TxOutRoundTrip(vout[i], next, curve);
      var e := EncodeTxOut(vout[i], curve);
      assert EncodeOuts(vout, i, curve) == e + EncodeOuts(vout, i + 1, curve);
      Assoc(e, EncodeOuts(vout, i + 1, curve), rest);
    } else {
      assert EncodeOuts(vout, i, curve) == EncodeOuts(vout, i + 1, curve);
    }
  }

  /** One more output ahead of those that are read back. */
  lemma {:induction false} OutAhead(vout: seq<TxOut>, i: nat, avail: seq<bool>, o: TxOut, next: seq<byte>,
                                    more: seq<TxOut>, rest: seq<byte>, curve: Curve)
    requires i < |avail| && avail[i] == Avail(vout, i) && AllEncodable(vout) && Lawful(curve) && IsOut(vout, i, o)
    requires ParseOuts(next, avail, i + 1, curve) == Got(more, rest) && next == EncodeOuts(vout, i + 1, curve) + rest
    ensures ParseOuts(EncodeOuts(vout, i, curve) + rest, avail, i, curve) == Got([o] + more, rest)
  {
    var d := EncodeOuts(vout, i, curve) + rest;
    OutEncoded(vout, i, rest, next, curve, o);
    ParseOutStep(d, avail, i, o, next, more, rest, curve);
  }

  lemma {:induction false} ParseOutsEncoded(vout: seq<TxOut>, i: nat, m: nat, rest: seq<byte>, curve: Curve)
    requires i <= m && |vout| <= m && AllEncodable(vout) && Lawful(curve)
    ensures ParseOuts(EncodeOuts(vout, i, curve) + rest, Avails(vout, 0, m), i, curve) == Got(Outs(vout, i, m), rest)
    decreases m - i
  {
    if i == m {
      assert EncodeOuts(vout, i, curve) + rest == rest;
    } else {
      var next, avail, more := EncodeOuts(vout, i + 1, curve) + rest, Avails(vout, 0, m), Outs(vout, i + 1, m);
      ParseOutsEncoded(vout, i + 1, m, rest, curve);
      var o := OutsCons(vout, i, m, more);
      OutAhead(vout, i, avail, o, next, more, rest, curve);
    }
  }

  lemma Assoc(a: seq<byte>, b: seq<byte>, c: seq<byte>)
    ensures (a + b) + c == a + (b + c)
  {
  }

  /** Past the end of the outputs there is nothing to keep. */
  lemma {:induction false} TrimOuts(vout: seq<TxOut>, m: nat, r: seq<TxOut>)
    requires |vout| <= m && r == Trim(Outs(vout, 0, m))
    ensures r == Trim(Outs(vout, 0, |vout|))
  {
    TrimNulls(Outs(vout, 0, |vout|), Outs(vout, 0, m));
  }

  lemma {:induction false} TrimNulls(a: seq<TxOut>, b: seq<TxOut>)
    requires a <= b && forall k :: |a| <= k < |b| ==> b[k] == NULL_OUT
    ensures Trim(b) == Trim(a)
    decreases |b|
  {
    if |a| < |b| {
      var l := |b| - 1;
      assert b[l] == NULL_OUT;
      TrimNulls(a, b[..l]);
    } else {
      assert a == b;
    }
  }

  lemma CodeIs(c: Coins)
    requires IsClean(c) && !c.IsPruned() && |c.vout| < 0x8000_0000
    ensures 0 <= Code(c) < 0x1_0000_0000 && IsMaskSize(c.vout, MaskSize(c.vout))
    ensures |c.vout| <= 2 + 8 * MaskSize(c.vout)
    ensures (Code(c) % 2 == 1) == c.fCoinBase && HeaderBits(Code(c)) == Avails(c.vout, 0, 2)
    ensures MaskCode(Code(c)) == NonZero(Mask(c.vout, 0, MaskSize(c.vout)))
  {
    var n := MaskSize(c.vout);
    MaskSizeIs(c.vout, (|c.vout| + 5) / 8);
    NonZeroBound(Mask(c.vout, 0, n));
    if n > 0 { LastCounts(c.vout, 0, n); }
    assert Avail(c.vout, |c.vout| - 1);
    CodeFields(NonZero(Mask(c.vout, 0, n)), c.fCoinBase, Avail(c.vout, 0), Avail(c.vout, 1), Code(c));
  }

  lemma {:induction false} NonZeroBound(m: seq<byte>)
    ensures NonZero(m) <= |m|
  {
    if m != [] { NonZeroBound(m[1..]); }
  }

  lemma CodeFields(n: nat, coinBase: bool, first: bool, second: bool, code: int)
    requires first || second || n > 0
    requires code == 8 * (n - (if first || second then 0 else 1)) + (if coinBase then 1 else 0) +
                     (if first then 2 else 0) + (if second then 4 else 0)
    ensures 0 <= code && (code % 2 == 1) == coinBase && (code / 2 % 2 == 1) == first && (code / 4 % 2 == 1) == second
    ensures MaskCode(code) == n
  {
    var k := n - (if first || second then 0 else 1);
    if first {
      if second { assert code / 2 == 4 * k + 3; } else { assert code / 2 == 4 * k + 1; }
    } else {
      if second { assert code / 2 == 4 * k + 2; } else { assert code / 2 == 4 * k; }
    }
  }

  /** A clean record with something to store, whose fields fit their machine types. */
  predicate Storable(c: Coins) {
    && IsClean(c) && !c.IsPruned() && AllEncodable(c.vout) && |c.vout| < 0x8000_0000
    && -0x8000_0000 <= c.nVersion < 0x8000_0000 && -0x8000_0000 <= c.nHeight < 0x8000_0000
  }

  lemma ParseCoinsSteps(d: seq<byte>, nVersion: nat, d1: seq<byte>, nCode: nat, d2: seq<byte>, mask: seq<bool>,
                        d3: seq<byte>, vout: seq<TxOut>, d4: seq<byte>, nHeight: nat, rest: seq<byte>, curve: Curve)
    requires ParseVarInt(d, 32) == Got(nVersion, d1) && ParseVarInt(d1, 32) == Got(nCode, d2)
    requires ParseMask(d2, MaskCode(nCode)) == Got(mask, d3)
    requires ParseOuts(d3, HeaderBits(nCode) + mask, 0, curve) == Got(vout, d4)
    requires ParseVarInt(d4, 32) == Got(nHeight, rest)
    ensures ParseCoins(d, curve) == Got(Coins(nCode % 2 == 1, Trim(vout), AsSigned(nHeight), AsSigned(nVersion)), rest)
  {
  }

  /** The numbers in the header of a record: how many mask bytes, and the code. */
  predicate IsHeader(c: Coins, n: nat, code: nat) {
    && n == MaskSize(c.vout) && |c.vout| <= 2 + 8 * n && (n > 0 ==> MaskByte(c.vout, n - 1) != 0)
    && code == Code(c) && code < 0x1_0000_0000 && HeaderBits(code) == Avails(c.vout, 0, 2)
    && (code % 2 == 1) == c.fCoinBase && MaskCode(code) == NonZero(Mask(c.vout, 0, n))
  }

  predicate IsKept(c: Coins, n: nat, vout: seq<TxOut>) { vout == Trim(Outs(c.vout, 0, 2 + 8 * n)) }

  lemma {:induction false} TrimmedOuts(c: Coins, n: nat, code: nat) returns (vout: seq<TxOut>)
    requires IsHeader(c, n, code)
    ensures vout == Trim(Outs(c.vout, 0, |c.vout|)) && IsKept(c, n, vout)
  {
    vout := Trim(Outs(c.vout, 0, 2 + 8 * n));
    TrimOuts(c.vout, 2 + 8 * n, vout);
  }

  lemma {:induction false} ReadBack(c: Coins, n: nat, code: nat, vout: seq<TxOut>, rest: seq<byte>, curve: Curve)
    requires Storable(c) && Lawful(curve) && IsHeader(c, n, code) && IsKept(c, n, vout)
    ensures ParseCoins(EncodeCoins(c, curve) + rest, curve) ==
            Got(Coins(c.fCoinBase, vout, ComesBackAs(c.nHeight), ComesBackAs(c.nVersion)), rest)
  {
    var d4 := SignedVarInt(c.nHeight) + rest;
    var d3 := EncodeOuts(c.vout, 0, curve) + d4;
    var d2 := Mask(c.vout, 0, n) + d3;
    var d1 := SignedVarInt(code) + d2;
    Flatten(SignedVarInt(c.nVersion), SignedVarInt(code), Mask(c.vout, 0, n), EncodeOuts(c.vout, 0, curve),
            SignedVarInt(c.nHeight), rest);
    SignedRoundTrip(c.nVersion, d1);
    Written(code, d2);
    SignedRoundTrip(c.nHeight, rest);
    var outs := ReadOutsBack(c.vout, n, code, d3, d4, curve);
    ParseCoinsSteps(SignedVarInt(c.nVersion) + d1, ComesBackAs(c.nVersion), d1, code, d2,
                    Avails(c.vout, 2, 2 + 8 * n), d3, outs, d4,
                    ComesBackAs(c.nHeight), rest, curve);
  }

  lemma ReadOutsBack(vout: seq<TxOut>, n: nat, code: nat, d3: seq<byte>, d4: seq<byte>, curve: Curve)
    returns (outs: seq<TxOut>)
    requires AllEncodable(vout) && Lawful(curve) && |vout| <= 2 + 8 * n
    requires (n > 0 ==> MaskByte(vout, n - 1) != 0) && HeaderBits(code) == Avails(vout, 0, 2)
    requires MaskCode(code) == NonZero(Mask(vout, 0, n)) && d3 == EncodeOuts(vout, 0, curve) + d4
    ensures outs == Outs(vout, 0, 2 + 8 * n)
    ensures ParseMask(Mask(vout, 0, n) + d3, MaskCode(code)) == Got(Avails(vout, 2, 2 + 8 * n), d3)
    ensures ParseOuts(d3, HeaderBits(code) + Avails(vout, 2, 2 + 8 * n), 0, curve) == Got(outs, d4)
  {
    var m := 2 + 8 * n;
    outs := Outs(vout, 0, m);
    ParseMaskEncoded(vout, 0, n, 2, m, d3);
    AllAvails(vout, HeaderBits(code), m);
    ParseOutsEncoded(vout, 0, m, d4, curve);
  }

  /** A record as it is read back: spent outputs lose their scripts, the others have the amounts that
      come back, and negative fields keep but seven bits. */
  function Reread(c: Coins): Coins {
    Coins(c.fCoinBase, Outs(c.vout, 0, |c.vout|), ComesBackAs(c.nHeight), ComesBackAs(c.nVersion))
  }

  /** The outputs without the scripts of spent ones. */
  function Bare(vout: seq<TxOut>): (r: seq<TxOut>)
    ensures |r| == |vout| && forall i :: 0 <= i < |vout| ==> r[i] == if Avail(vout, i) then vout[i] else NULL_OUT
  {
    seq(|vout|, i requires 0 <= i < |vout| => if Avail(vout, i) then vout[i] else NULL_OUT)
  }

  predicate AmountsSurvive(vout: seq<TxOut>) {
    forall i :: 0 <= i < |vout| && Avail(vout, i) ==> Survives(Unsigned64(vout[i].nValue))
  }

  /** Each output comes back as it was if and only if its amount survives. */
  lemma {:induction false} OutStays(vout: seq<TxOut>, i: nat)
    requires AllEncodable(vout) && Avail(vout, i)
    ensures Out(vout, i) == vout[i] <==> Survives(Unsigned64(vout[i].nValue))
  {
    SignedComesBack(vout[i].nValue);
  }

  /** If all do, nothing is trimmed. */
  lemma {:induction false} AllStay(vout: seq<TxOut>)
    requires AllEncodable(vout) && AmountsSurvive(vout) && vout != [] && !vout[|vout| - 1].IsNull()
    ensures Trim(Outs(vout, 0, |vout|)) == Outs(vout, 0, |vout|) == Bare(vout)
  {
    var outs := Outs(vout, 0, |vout|);
    forall i | 0 <= i < |vout|
      ensures outs[i] == Bare(vout)[i]
    {
      if Avail(vout, i) { OutStays(vout, i); }
    }
    assert outs == Bare(vout);
    assert outs[|vout| - 1] == vout[|vout| - 1];
  }

  lemma {:induction false} StayOnly(vout: seq<TxOut>, outs: seq<TxOut>, bare: seq<TxOut>)
    requires AllEncodable(vout) && outs == Outs(vout, 0, |vout|) && bare == Bare(vout) && Trim(outs) == bare
    ensures AmountsSurvive(vout)
  {
    assert outs[..|outs|] == outs;
    forall i | 0 <= i < |vout| && Avail(vout, i)
      ensures Survives(Unsigned64(vout[i].nValue))
    {
      OutStays(vout, i);
      assert bare[i] == vout[i];
    }
  }

  lemma {:induction false} RereadIs(c: Coins, vout: seq<TxOut>)
    requires vout == Trim(Outs(c.vout, 0, |c.vout|))
    ensures Cleaned(Reread(c)) == Coins(c.fCoinBase, vout, ComesBackAs(c.nHeight), ComesBackAs(c.nVersion))
  {
  }

  /** What is read back of a written record. */
  lemma {:induction false} CoinsReadBack(c: Coins, rest: seq<byte>, curve: Curve)
    requires Storable(c) && Lawful(curve)
    ensures ParseCoins(EncodeCoins(c, curve) + rest, curve) == Got(Cleaned(Reread(c)), rest)
  {
    var n, code := StorableHeader(c);
    var vout := TrimmedOuts(c, n, code);
    RereadIs(c, vout);
    ReadBack(c, n, code, vout, rest, curve);
  }

  /** It has no output that the record had not, and each of them as it was if and only if its amount
      survives. */
  lemma {:induction false} RereadOuts(c: Coins, i: nat)
    requires AllEncodable(c.vout)
    ensures Reread(c).IsAvailable(i) ==> c.IsAvailable(i)
    ensures c.IsAvailable(i) ==> (Reread(c).vout[i] == c.vout[i] <==> Survives(Unsigned64(c.vout[i].nValue)))
  {
    if c.IsAvailable(i) { OutStays(c.vout, i); }
  }

  lemma {:induction false} RereadSame(c: Coins)
    requires Storable(c)
    ensures Cleaned(Reread(c)) == c.(vout := Bare(c.vout)) <==>
            c.nVersion >= 0 && c.nHeight >= 0 && AmountsSurvive(c.vout)
  {
    var b, outs := Bare(c.vout), Outs(c.vout, 0, |c.vout|);
    if AmountsSurvive(c.vout) { AllStay(c.vout); }
    if Trim(outs) == b { StayOnly(c.vout, outs, b); }
  }

  lemma {:induction false} SameAvailable(c: Coins)
    requires Storable(c) && AmountsSurvive(c.vout)
    ensures forall i: nat :: Cleaned(Reread(c)).IsAvailable(i) <==> c.IsAvailable(i)
  {
    AllStay(c.vout);
    assert Cleaned(Reread(c)).vout == Bare(c.vout);
  }

  /** It is the record itself, but for the scripts of spent outputs, if and only if its version and
      height are not negative and the amounts of its outputs survive. */
  lemma {:induction false} CoinsRoundTrip(c: Coins, rest: seq<byte>, curve: Curve)
    requires Storable(c) && Lawful(curve)
    ensures ParseCoins(EncodeCoins(c, curve) + rest, curve) == Got(Cleaned(Reread(c)), rest)
    ensures Cleaned(Reread(c)) == c.(vout := Bare(c.vout)) <==>
            c.nVersion >= 0 && c.nHeight >= 0 && AmountsSurvive(c.vout)
    ensures forall i: nat :: Reread(c).IsAvailable(i) ==> c.IsAvailable(i)
    ensures forall i: nat :: c.IsAvailable(i) ==>
              (Reread(c).vout[i] == c.vout[i] <==> Survives(Unsigned64(c.vout[i].nValue)))
    ensures AmountsSurvive(c.vout) ==> forall i: nat :: Cleaned(Reread(c)).IsAvailable(i) <==> c.IsAvailable(i)
  {
    CoinsReadBack(c, rest, curve);
    RereadSame(c);
    if AmountsSurvive(c.vout) { SameAvailable(c); }
    forall i: nat
      ensures Reread(c).IsAvailable(i) ==> c.IsAvailable(i)
      ensures c.IsAvailable(i) ==> (Reread(c).vout[i] == c.vout[i] <==> Survives(Unsigned64(c.vout[i].nValue)))
    {
      RereadOuts(c, i);
    }
  }

  lemma {:induction false} StorableHeader(c: Coins) returns (n: nat, code: nat)
    requires Storable(c)
    ensures IsHeader(c, n, code)
  {
    CodeIs(c);
    n, code := MaskSize(c.vout), Code(c);
  }

  lemma Flatten(a: seq<byte>, b: seq<byte>, c: seq<byte>, d: seq<byte>, e: seq<byte>, rest: seq<byte>)
    ensures (a + (b + (c + (d + e)))) + rest == a + (b + (c + (d + (e + rest))))
  {
  }

  lemma Written(n: nat, rest: seq<byte>)
    requires n < 0x1_0000_0000
    ensures ParseVarInt(SignedVarInt(n) + rest, 32) == Got(n, rest)
  {
    TwoTo32();
    VarIntRoundTrip(n, rest, 32);
  }

  // ---- the streams ----

  method Serialize(os: Stream, c: Coins, curve: Curve)
    requires !c.IsPruned() && |c.vout| < 0x8000_0000
    requires forall i :: 0 <= i < |c.vout| ==> |c.vout[i].scriptPubKey| + SPECIAL_SCRIPTS < 0x1_0000_0000
    requires c.nVersion < 0x8000_0000 && c.nHeight < 0x8000_0000
    modifies os
    ensures os.data == old(os.data) + EncodeCoins(c, curve)
  {
    var nMaskSize, nCode := FindHeader(c);
    ghost var start := os.data;
    TwoTo32();
    WriteVarInt(os, c.nVersion, 32);
    WriteVarInt(os, nCode, 32);
    WriteMask(os, c.vout, nMaskSize);
    WriteOuts(os, c.vout, curve);
    WriteVarInt(os, c.nHeight, 32);
    InOrder(start, SignedVarInt(c.nVersion), SignedVarInt(nCode), Mask(c.vout, 0, nMaskSize),
            EncodeOuts(c.vout, 0, curve), SignedVarInt(c.nHeight));
  }

  lemma InOrder(s: seq<byte>, a: seq<byte>, b: seq<byte>, c: seq<byte>, d: seq<byte>, e: seq<byte>)
    ensures ((((s + a) + b) + c) + d) + e == s + (a + (b + (c + (d + e))))
  {
  }

  method FindHeader(c: Coins) returns (nMaskSize: nat, nCode: nat)
    requires !c.IsPruned() && |c.vout| < 0x8000_0000
    ensures nMaskSize == MaskSize(c.vout) && nCode == Code(c) < 0x1_0000_0000
  {
    var nMaskCode;
    nMaskSize, nMaskCode := CalcMaskSize(c.vout);
    var fFirst := |c.vout| > 0 && !c.vout[0].IsNull();
    var fSecond := |c.vout| > 1 && !c.vout[1].IsNull();
    MaskSizeIs(c.vout, (|c.vout| + 5) / 8);
    MaskSizeUnique(c.vout, nMaskSize, MaskSize(c.vout));
    NonZeroBound(Mask(c.vout, 0, nMaskSize));
    assert fFirst || fSecond || nMaskCode != 0;
    nCode := 8 * (nMaskCode - (if fFirst || fSecond then 0 else 1)) + (if c.fCoinBase then 1 else 0) +
             (if fFirst then 2 else 0) + (if fSecond then 4 else 0);
  }

  method WriteMask(os: Stream, vout: seq<TxOut>, n: nat)
    modifies os
    ensures os.data == old(os.data) + Mask(vout, 0, n)
  {
    for b := 0 to n
      invariant os.data == old(os.data) + Mask(vout, 0, b)
    {
      var chAvail: nat := 0;
      ghost var e := Eight(vout, b);
      for i := 0 to 8
        invariant chAvail == Pack(e[..i])
        invariant os.data == old(os.data) + Mask(vout, 0, b)
      {
        PackSnoc(e, i);
        if 2 + b * 8 + i < |vout| && !vout[2 + b * 8 + i].IsNull() {
          chAvail := BitOr(chAvail, Pow2(i));
        }
      }
      assert e[..8] == e;
      PackBound(e);
      assert Pow2(8) == 256;
      os.Write(chAvail);
      MaskSnoc(vout, b);
    }
  }

  lemma PackSnoc(bs: seq<bool>, i: nat)
    requires i < |bs|
    ensures Pack(bs[..i + 1]) == if bs[i] then BitOr(Pack(bs[..i]), Pow2(i)) else Pack(bs[..i])
  {
    PackSum(bs, i);
    PackBound(bs[..i]);
    DivUnique(Pow2(i), Pow2(i), 1, 0);
    OrDisjoint(Pack(bs[..i]), Pow2(i), i);
  }

  lemma {:induction false} PackSum(bs: seq<bool>, i: nat)
    requires i < |bs|
    ensures Pack(bs[..i + 1]) == Pack(bs[..i]) + if bs[i] then Pow2(i) else 0
  {
    if i > 0 {
      PackSum(bs[1..], i - 1);
      assert bs[..i + 1][1..] == bs[1..][..i] && bs[..i][1..] == bs[1..][..i - 1];
    } else {
      assert bs[..0] == [] && bs[..1] == [bs[0]];
    }
  }

  method WriteOuts(os: Stream, vout: seq<TxOut>, curve: Curve)
    requires forall i :: 0 <= i < |vout| ==> |vout[i].scriptPubKey| + SPECIAL_SCRIPTS < 0x1_0000_0000
    modifies os
    ensures os.data == old(os.data) + EncodeOuts(vout, 0, curve)
  {
    ghost var all := old(os.data) + EncodeOuts(vout, 0, curve);
    for i := 0 to |vout|
      invariant os.data + EncodeOuts(vout, i, curve) == all
    {
      ghost var more := EncodeOuts(vout, i + 1, curve);
      ghost var before := os.data;
      if !vout[i].IsNull() {
        WriteTxOut(os, vout[i], curve);
        Assoc(before, EncodeTxOut(vout[i], curve), more);
      } else {
        assert EncodeOuts(vout, i, curve) == more;
      }
    }
  }

  /** What was read, after what had been read before. */
  function Prefixed<T>(pre: seq<T>, p: Parsed<seq<T>>): Parsed<seq<T>> {
    match p
    case Fail => Fail
    case Got(s, rest) => Got(pre + s, rest)
  }

  method ReadMask(is_: Stream, nCode: nat) returns (r: Option<seq<bool>>)
    modifies is_
    ensures var p := ParseMask(old(is_.data), MaskCode(nCode));
            if p.Got? then r == Some(HeaderBits(nCode) + p.value) && is_.data == p.rest else r == None
  {
    ghost var all := ParseMask(is_.data, MaskCode(nCode));
    var vAvail := [nCode / 2 % 2 == 1, nCode / 4 % 2 == 1];
    var nMaskCode := MaskCode(nCode);
    ghost var seen: seq<bool> := [];
    EmptyPrefix(all);
    while nMaskCode > 0
      invariant vAvail == HeaderBits(nCode) + seen
      invariant all == Prefixed(seen, ParseMask(is_.data, nMaskCode))
      decreases |is_.data|
    {
      var c := is_.Read(1);
      if c.None? { return None; }
      var chAvail := c.value[0];
      ghost var before := vAvail;
      for p := 0 to 8
        invariant vAvail == before + Unpack(chAvail)[..p]
      {
        assert Unpack(chAvail)[..p + 1] == Unpack(chAvail)[..p] + [TestBit(chAvail, p)];
        vAvail := vAvail + [TestBit(chAvail, p)];
      }
      if chAvail != 0 { nMaskCode := nMaskCode - 1; }
      MorePrefix(seen, Unpack(chAvail), ParseMask(is_.data, nMaskCode));
      seen := seen + Unpack(chAvail);
    }
    r := Some(vAvail);
    assert seen + [] == seen;
  }

  lemma EmptyPrefix<T>(p: Parsed<seq<T>>)
    ensures p == Prefixed([], p)
  {
    if p.Got? { assert [] + p.value == p.value; }
  }

  lemma MorePrefix<T>(a: seq<T>, b: seq<T>, p: Parsed<seq<T>>)
    ensures Prefixed(a, Prefixed(b, p)) == Prefixed(a + b, p)
  {
    if p.Got? { assert a + (b + p.value) == (a + b) + p.value; }
  }

  method ReadOuts(is_: Stream, vAvail: seq<bool>, curve: Curve) returns (r: Option<seq<TxOut>>)
    requires Lawful(curve)
    modifies is_
    ensures var p := ParseOuts(old(is_.data), vAvail, 0, curve);
            if p.Got? then r == Some(p.value) && is_.data == p.rest else r == None
  {
    ghost var all := ParseOuts(is_.data, vAvail, 0, curve);
    var vout := new TxOut[|vAvail|](_ => NULL_OUT);
    EmptyPrefix(all);
    assert vout[..0] == [];
    for i := 0 to |vAvail|
      invariant forall k :: i <= k < |vAvail| ==> vout[k] == NULL_OUT
      invariant all == Prefixed(vout[..i], ParseOuts(is_.data, vAvail, i, curve))
    {
      ghost var pre, here := vout[..i], ParseOuts(is_.data, vAvail, i, curve);
      if vAvail[i] {
        var o := ReadTxOut(is_, curve);
        if o.None? { return None; }
        vout[i] := o.value;
      }
      assert vout[..i + 1] == pre + [vout[i]];
      assert here == Prefixed([vout[i]], ParseOuts(is_.data, vAvail, i + 1, curve));
      MorePrefix(pre, [vout[i]], ParseOuts(is_.data, vAvail, i + 1, curve));
    }
    r := Some(vout[..]);
    assert vout[..] == vout[..|vAvail|] + [];
  }

  method Unserialize(is_: Stream, curve: Curve) returns (r: Option<Coins>)
    requires Lawful(curve)
    modifies is_
    ensures var p := ParseCoins(old(is_.data), curve);
            if p.Got? then r == Some(p.value) && is_.data == p.rest else r == None
  {
    var nVersion := ReadVarInt(is_, 32);
    if nVersion.None? { return None; }
    var nCode := ReadVarInt(is_, 32);
    if nCode.None? { return None; }
    var vAvail := ReadMask(is_, nCode.value);
    if vAvail.None? { return None; }
    var vout := ReadOuts(is_, vAvail.value, curve);
    if vout.None? { return None; }
    var nHeight := ReadVarInt(is_, 32);
    if nHeight.None? { return None; }
    var c := Coins(nCode.value % 2 == 1, vout.value, AsSigned(nHeight.value), AsSigned(nVersion.value));
    c := Cleanup(c);
    r := Some(c);
  }
}

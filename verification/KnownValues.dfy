/** The values that the repository gives as examples: bytes of integers, amounts and coin records, base-58
    texts and compact targets. */
module KnownValues {
  import opened Bits
  import opened Wrappers
  import opened Serial
  import opened Compressor
  import opened CoinsData
  import opened CoinsCodec
  import opened Radix
  import Base58
  import Compact

  /** The table of variable-length integers; what it gives for 16511 and 65535 is not what the code writes. */
  lemma Integers()
    ensures VarInt(0) == [0x00] && VarInt(1) == [0x01] && VarInt(127) == [0x7F]
    ensures VarInt(128) == [0x80, 0x00] && VarInt(255) == [0x80, 0x7F] && VarInt(256) == [0x81, 0x00]
    ensures VarInt(16383) == [0xFE, 0x7F] && VarInt(16384) == [0xFF, 0x00]
    ensures VarInt(16511) == [0xFF, 0x7F] && VarInt(65535) == [0x82, 0xFE, 0x7F]
    ensures VarInt(0x1_0000_0000) == [0x8E, 0xFE, 0xFE, 0xFF, 0x00]
  {
    TwoBytes(128, 0, 0x00);
    TwoBytes(255, 0, 0x7F);
    TwoBytes(256, 1, 0x00);
    TwoBytes(16383, 126, 0x7F);
    TwoBytes(16384, 127, 0x00);
    TwoBytes(16511, 127, 0x7F);
    assert Lead(2) == [0x82] && Lead(510) == Lead(2) + [0xFE];
    TwoTo32Bytes();
  }

  lemma TwoBytes(n: nat, d: nat, low: nat)
    requires d < 128 && low < 128 && n == 128 * (d + 1) + low
    ensures VarInt(n) == [0x80 + d, low]
  {
    assert n / 128 == d + 1 && n % 128 == low;
  }

  lemma TwoTo32Bytes()
    ensures VarInt(0x1_0000_0000) == [0x8E, 0xFE, 0xFE, 0xFF, 0x00]
  {
    assert Lead(14) == [0x8E] && Lead(2046) == Lead(14) + [0xFE];
    assert Lead(262142) == Lead(2046) + [0xFE];
    assert Lead(33554431) == Lead(262142) + [0xFF];
  }

  /** The amounts of the tests: 0, one unit, a hundredth, one, fifty and 21 million coins. */
  lemma Amounts()
    ensures CompactAmount(0) == 0x0 && CompactAmount(1) == 0x1 && CompactAmount(1_000_000) == 0x7
    ensures CompactAmount(100_000_000) == 0x9 && CompactAmount(50 * 100_000_000) == 0x32
    ensures CompactAmount(21_000_000 * 100_000_000) == 0x1406f40
  {
    PowersOfTen();
    CompactFormIs(1, 0);
    CompactFormIs(1, 6);
    CompactFormIs(1, 8);
    CompactFormIs(5, 9);
    CompactFormIs(2_100_000, 9);
  }

  lemma PowersOfTen()
    ensures Pow10(0) == 1 && Pow10(6) == 1_000_000 && Pow10(8) == 100_000_000 && Pow10(9) == 1_000_000_000
  {
    assert Pow10(1) == 10 && Pow10(2) == 100 && Pow10(3) == 1000 && Pow10(4) == 10_000 && Pow10(5) == 100_000;
    assert Pow10(7) == 10_000_000;
  }

  // ---------------------------------------------------------------- coin records

  function PayTo(hash: seq<byte>): seq<byte> { [0x76, 0xa9, 20] + hash + [0x88, 0xac] }

  lemma PayToBytes(hash: seq<byte>, curve: Curve)
    requires |hash| == 20
    ensures EncodeScript(PayTo(hash), curve) == [0x00] + hash
  {
    assert ([0] + hash)[1..] == hash;
    assert HasForm(PayTo(hash), [0] + hash, curve);
    FormFound(PayTo(hash), [0] + hash, curve);
  }

  lemma OutBytes(n: nat, x: nat, hash: seq<byte>, curve: Curve)
    requires CompactAmount(n) == x && n < WRAP64 && x < WRAP64 && |hash| == 20
    ensures EncodeTxOut(TxOut(n, PayTo(hash)), curve) == VarInt(x) + ([0x00] + hash)
  {
    PayToBytes(hash, curve);
    Fits64(n);
    Fits64(x);
    var o := TxOut(n, PayTo(hash));
    assert Unsigned64(o.nValue) == n && CompactAmount(Unsigned64(o.nValue)) % WRAP64 == x;
  }

  lemma {:induction false} PackNone(bs: seq<bool>)
    requires forall k :: 0 <= k < |bs| ==> !bs[k]
    ensures Pack(bs) == 0
  {
    PackZero(bs);
  }

  lemma {:induction false} PackOne(bs: seq<bool>, p: nat)
    requires p < |bs| && forall k :: 0 <= k < |bs| ==> (bs[k] <==> k == p)
    ensures Pack(bs) == Pow2(p)
  {
    if p == 0 {
      assert forall k :: 0 <= k < |bs[1..]| ==> bs[1..][k] == bs[k + 1];
      PackNone(bs[1..]);
    } else {
      assert forall k :: 0 <= k < |bs[1..]| ==> bs[1..][k] == bs[k + 1];
      PackOne(bs[1..], p - 1);
    }
  }

  lemma SpentAdds(vout: seq<TxOut>, i: nat, curve: Curve)
    requires i < |vout|
    ensures EncodeOuts(vout, i, curve)
              == (if vout[i].IsNull() then [] else EncodeTxOut(vout[i], curve)) + EncodeOuts(vout, i + 1, curve)
  {
  }

  lemma SpentStep(vout: seq<TxOut>, i: nat, curve: Curve, d: seq<byte>)
    requires i < |vout| && vout[i].IsNull() && d == EncodeOuts(vout, i + 1, curve)
    ensures EncodeOuts(vout, i, curve) == d
  {
    SpentAdds(vout, i, curve);
    NothingBefore(d);
  }

  lemma {:induction false} SameAll(f: nat -> seq<byte>, i: nat, j: nat)
    requires i <= j && forall k: nat :: i <= k < j ==> f(k) == f(k + 1)
    ensures f(i) == f(j)
  {
    if i < j { SameAll(f, i, j - 1); }
  }

  lemma {:induction false} SkipSpent(vout: seq<TxOut>, i: nat, j: nat, curve: Curve)
    requires i <= j <= |vout| && forall k :: i <= k < j ==> vout[k].IsNull()
    ensures EncodeOuts(vout, i, curve) == EncodeOuts(vout, j, curve)
  {
    var f := (k: nat) => EncodeOuts(vout, k, curve);
    forall k: nat | i <= k < j ensures f(k) == f(k + 1) {
      SpentStep(vout, k, curve, EncodeOuts(vout, k + 1, curve));
    }
    SameAll(f, i, j);
  }

  lemma NothingBefore(d: seq<byte>)
    ensures [] + d == d
  {
  }

  /** The bytes of a record from those of its parts. */
  lemma RecordBytes(c: Coins, n: nat, curve: Curve, code: seq<byte>, mask: seq<byte>, outs: seq<byte>,
                    height: seq<byte>)
    requires c.nVersion == 1 && n == Code(c) && VarInt(n) == code && Mask(c.vout, 0, MaskSize(c.vout)) == mask
    requires EncodeOuts(c.vout, 0, curve) == outs && c.nHeight >= 0 && VarInt(c.nHeight) == height
    ensures EncodeCoins(c, curve) == [0x01] + code + mask + outs + height
  {
    assert SignedVarInt(1) == [0x01];
    Reassociate([0x01], code, mask, outs, height);
  }

  lemma Reassociate(a: seq<byte>, b: seq<byte>, c: seq<byte>, d: seq<byte>, e: seq<byte>)
    ensures a + (b + (c + (d + e))) == a + b + c + d + e
  {
  }

  /** The first example of a record: version 1, only the second output unspent, 600 coins to a key hash,
      height 203998. */
  lemma {:induction false} FirstRecord(hash: seq<byte>, curve: Curve)
    requires |hash| == 20
    ensures EncodeCoins(Coins(false, [NULL_OUT, TxOut(60_000_000_000, PayTo(hash))], 203998, 1), curve)
              == [0x01] + [0x04] + [] + ([0x83, 0x58] + ([0x00] + hash)) + [0x8b, 0xb8, 0x5e]
  {
    PowersOfTen();
    CompactFormIs(60, 9);
    FirstNumbers();
    OutBytes(60_000_000_000, 600, hash, curve);
    var o := TxOut(60_000_000_000, PayTo(hash));
    var c := Coins(false, [NULL_OUT, o], 203998, 1);
    FirstOuts(o, curve);
    assert MaskSize(c.vout) == 0 && Mask(c.vout, 0, 0) == [];
    assert Code(c) == 4;
    RecordBytes(c, 4, curve, [0x04], [], [0x83, 0x58] + ([0x00] + hash), [0x8b, 0xb8, 0x5e]);
  }

  lemma FirstNumbers()
    ensures VarInt(4) == [0x04] && VarInt(600) == [0x83, 0x58] && VarInt(203998) == [0x8b, 0xb8, 0x5e]
  {
    assert Lead(3) == [0x83] && Lead(11) == [0x8b] && Lead(1592) == Lead(11) + [0xb8];
  }

  lemma FirstOuts(o: TxOut, curve: Curve)
    requires !o.IsNull()
    ensures EncodeOuts([NULL_OUT, o], 0, curve) == EncodeTxOut(o, curve)
  {
    var vout := [NULL_OUT, o];
    SpentAdds(vout, 0, curve);
    SpentAdds(vout, 1, curve);
    assert EncodeOuts(vout, 2, curve) == [];
    assert EncodeTxOut(o, curve) + [] == EncodeTxOut(o, curve);
  }

  /** Seventeen outputs, of which the fifth and the last are unspent. */
  function TwoOfSeventeen(a: TxOut, b: TxOut): (r: seq<TxOut>)
    ensures |r| == 17 && forall i :: 0 <= i < 17 ==> r[i] == if i == 4 then a else if i == 16 then b else NULL_OUT
  {
    seq(17, i => if i == 4 then a else if i == 16 then b else NULL_OUT)
  }

  lemma {:induction false} TwoMaskBytes(a: TxOut, b: TxOut)
    requires !a.IsNull() && !b.IsNull()
    ensures var vout := TwoOfSeventeen(a, b);
            && MaskSize(vout) == 2 && Mask(vout, 0, 2) == [0x04, 0x40] && NonZero(Mask(vout, 0, 2)) == 2
  {
    var vout := TwoOfSeventeen(a, b);
    PackOne(Eight(vout, 0), 2);
    PackOne(Eight(vout, 1), 6);
    assert Pow2(2) == 4 && Pow2(6) == 64 by { assert Pow2(4) == 16; }
    assert MaskByte(vout, 0) == 0x04 && MaskByte(vout, 1) == 0x40;
    assert NonZero([0x40]) == 1;
    assert Mask(vout, 0, 2)[1..] == [0x40];
  }

  lemma {:induction false} TwoOutBytes(a: TxOut, b: TxOut, curve: Curve)
    requires !a.IsNull() && !b.IsNull()
    ensures EncodeOuts(TwoOfSeventeen(a, b), 0, curve) == EncodeTxOut(a, curve) + EncodeTxOut(b, curve)
  {
    var vout := TwoOfSeventeen(a, b);
    SkipSpent(vout, 0, 4, curve);
    SpentAdds(vout, 4, curve);
    SkipSpent(vout, 5, 16, curve);
    SpentAdds(vout, 16, curve);
    assert EncodeOuts(vout, 17, curve) == [];
    assert EncodeTxOut(b, curve) + [] == EncodeTxOut(b, curve);
  }

  /** The second example: version 1, a coinbase, the fifth output unspent, with 2.34925952 coins, and the
      seventeenth, with 0.00110397, height 120891. */
  lemma {:induction false} SecondRecord(hash: seq<byte>, hash': seq<byte>, curve: Curve)
    requires |hash| == 20 && |hash'| == 20
    ensures var a, b := TxOut(234_925_952, PayTo(hash)), TxOut(110_397, PayTo(hash'));
            EncodeCoins(Coins(true, TwoOfSeventeen(a, b), 120891, 1), curve)
              == [0x01] + [0x09] + [0x04, 0x40]
                 + (([0x86, 0xef, 0x97, 0xd5, 0x79] + ([0x00] + hash)) + ([0xbb, 0xd1, 0x23] + ([0x00] + hash')))
                 + [0x86, 0xaf, 0x3b]
  {
    var a, b := TxOut(234_925_952, PayTo(hash)), TxOut(110_397, PayTo(hash'));
    assert Pow10(0) == 1;
    CompactFormIs(234_925_952, 0);
    CompactFormIs(110_397, 0);
    SecondNumbers();
    OutBytes(234_925_952, 2_114_333_561, hash, curve);
    OutBytes(110_397, 993_571, hash', curve);
    TwoMaskBytes(a, b);
    TwoOutBytes(a, b, curve);
    var c := Coins(true, TwoOfSeventeen(a, b), 120891, 1);
    assert Code(c) == 9;
    RecordBytes(c, 9, curve, [0x09], [0x04, 0x40], EncodeTxOut(a, curve) + EncodeTxOut(b, curve), [0x86, 0xaf, 0x3b]);
  }

  lemma SecondNumbers()
    ensures VarInt(9) == [0x09] && VarInt(2_114_333_561) == [0x86, 0xef, 0x97, 0xd5, 0x79]
    ensures VarInt(993_571) == [0xbb, 0xd1, 0x23] && VarInt(120891) == [0x86, 0xaf, 0x3b]
  {
    assert Lead(6) == [0x86] && Lead(1007) == Lead(6) + [0xef] && Lead(129047) == Lead(1007) + [0x97];
    assert Lead(16518229) == Lead(129047) + [0xd5];
    assert Lead(59) == [0xbb] && Lead(7761) == Lead(59) + [0xd1];
    assert Lead(943) == Lead(6) + [0xaf];
  }

  // ---------------------------------------------------------------- base-58 texts

  /** The text of bytes from the digits of their number. */
  lemma TextBytes(v: seq<byte>, n: nat, d: seq<nat>, text: string)
    requires Zeros(v) == 0 && Num(256, v) == n && Digits(58, n) == d
    requires |text| == |d| && forall k :: 0 <= k < |d| ==> text[k] == Base58.Alphabet()[d[k]]
    ensures Base58.Encode(Base58.Alphabet(), v) == text
  {
    assert Base58.Chars(Base58.Alphabet(), d) == text;
    assert Repeat('1', 0) + text == text;
  }

  lemma Letters()
    ensures var abc := Base58.Alphabet();
            && abc[1] == '2' && abc[2] == '3' && abc[9] == 'A' && abc[10] == 'B' && abc[19] == 'L' && abc[26] == 'T'
            && abc[28] == 'V' && abc[33] == 'a' && abc[39] == 'g' && abc[44] == 'm' && abc[45] == 'n'
  {
    var a, b, c, d, e := "123456789", "ABCDEFGHJKLM", "NPQRSTUVWXYZ", "abcdefghijkm", "nopqrstuvwxyz";
    assert Base58.Alphabet() == a + b + c + d + e;
    assert a[1] == '2' && a[2] == '3' && b[0] == 'A' && b[1] == 'B' && b[10] == 'L' && c[5] == 'T' && c[7] == 'V';
    assert d[0] == 'a' && d[6] == 'g' && d[11] == 'm' && e[0] == 'n';
  }

  lemma OneMore(b: nat, s: seq<nat>, d: nat, n: nat, m: nat)
    requires b >= 2 && Num(b, s) == n && m == n * b + d
    ensures Num(b, s + [d]) == m
  {
    NumSnoc(b, s, d);
  }

  lemma DigitMore(n: nat, d: nat, s: seq<nat>, m: nat)
    requires Digits(58, n) == s && d < 58 && m == n * 58 + d && m > 0
    ensures Digits(58, m) == s + [d]
  {
    assert m / 58 == n && m % 58 == d;
  }

  lemma FirstText()
    ensures Base58.Encode(Base58.Alphabet(), [0x61]) == "2g"
  {
    OneMore(256, [], 0x61, 0, 0x61);
    assert [] + [0x61] == [0x61];
    DigitMore(0, 1, [], 1);
    DigitMore(1, 39, [1], 0x61);
    Letters();
    TextBytes([0x61], 0x61, [1, 39], "2g");
  }

  lemma SecondText()
    ensures Base58.Encode(Base58.Alphabet(), [0x62, 0x62, 0x62]) == "a3gV"
  {
    OneMore(256, [], 0x62, 0, 0x62);
    assert [] + [0x62] == [0x62];
    OneMore(256, [0x62], 0x62, 0x62, 0x6262);
    OneMore(256, [0x62, 0x62], 0x62, 0x6262, 0x626262);
    DigitMore(0, 33, [], 33);
    DigitMore(33, 2, [33], 1916);
    DigitMore(1916, 39, [33, 2], 111167);
    DigitMore(111167, 28, [33, 2, 39], 0x626262);
    Letters();
    TextBytes([0x62, 0x62, 0x62], 0x626262, [33, 2, 39, 28], "a3gV");
  }

  lemma ThirdText()
    ensures Base58.Encode(Base58.Alphabet(), [0x51, 0x6b, 0x6f, 0xcd, 0x0f]) == "ABnLTmg"
  {
    ThirdNumber();
    ThirdDigits();
    Letters();
    TextBytes([0x51, 0x6b, 0x6f, 0xcd, 0x0f], 0x516b6fcd0f, [9, 10, 45, 19, 26, 44, 39], "ABnLTmg");
  }

  lemma ThirdNumber()
    ensures Num(256, [0x51, 0x6b, 0x6f, 0xcd, 0x0f]) == 0x516b6fcd0f
  {
    OneMore(256, [], 0x51, 0, 0x51);
    assert [] + [0x51] == [0x51];
    OneMore(256, [0x51], 0x6b, 0x51, 0x516b);
    OneMore(256, [0x51, 0x6b], 0x6f, 0x516b, 0x516b6f);
    OneMore(256, [0x51, 0x6b, 0x6f], 0xcd, 0x516b6f, 0x516b6fcd);
    assert [0x51, 0x6b, 0x6f] + [0xcd] == [0x51, 0x6b, 0x6f, 0xcd];
    OneMore(256, [0x51, 0x6b, 0x6f, 0xcd], 0x0f, 0x516b6fcd, 0x516b6fcd0f);
    assert [0x51, 0x6b, 0x6f, 0xcd] + [0x0f] == [0x51, 0x6b, 0x6f, 0xcd, 0x0f];
  }

  lemma ThirdDigits()
    ensures Digits(58, 0x516b6fcd0f) == [9, 10, 45, 19, 26, 44, 39]
  {
    DigitMore(0, 9, [], 9);
    DigitMore(9, 10, [9], 532);
    DigitMore(532, 45, [9, 10], 30901);
    DigitMore(30901, 19, [9, 10, 45], 1792277);
    DigitMore(1792277, 26, [9, 10, 45, 19], 103952092);
    DigitMore(103952092, 44, [9, 10, 45, 19, 26], 6029221380);
    DigitMore(6029221380, 39, [9, 10, 45, 19, 26, 44], 0x516b6fcd0f);
  }

  lemma ZerosText(v: seq<byte>, n: nat)
    requires v == Repeat(0 as byte, n)
    ensures Base58.Encode(Base58.Alphabet(), v) == Repeat('1', n)
  {
    NumAllZero(256, v);
    ZerosIs(v, n);
    assert Digits(58, 0) == [];
    assert Repeat('1', n) + [] == Repeat('1', n);
  }

  /** Three texts of the tests; zero bytes are written as ones, however many they are. */
  lemma Texts(n: nat)
    ensures Base58.Encode(Base58.Alphabet(), [0x61]) == "2g"
    ensures Base58.Encode(Base58.Alphabet(), [0x62, 0x62, 0x62]) == "a3gV"
    ensures Base58.Encode(Base58.Alphabet(), [0x51, 0x6b, 0x6f, 0xcd, 0x0f]) == "ABnLTmg"
    ensures Base58.Encode(Base58.Alphabet(), Repeat(0 as byte, n)) == Repeat('1', n)
  {
    FirstText();
    SecondText();
    ThirdText();
    ZerosText(Repeat(0 as byte, n), n);
  }

  // ---------------------------------------------------------------- compact targets

  function Target(nCompact: nat): nat {
    Compact.Expand(Compact.Form(Compact.SizeOf(nCompact), Compact.MantissaOf(nCompact)))
  }

  /** What the tests read compact targets as. */
  lemma Targets()
    ensures Target(0) == 0 && Target(0x00123456) == 0 && Target(0x01003456) == 0 && Target(0x02000056) == 0
    ensures Target(0x01123456) == 0x12 && Target(0x01fedcba) == 0x7e && Target(0x02123456) == 0x1234
    ensures Target(0x03123456) == 0x123456 && Target(0x04123456) == 0x12345600 && Target(0x04923456) == 0x12345600
    ensures Target(0x05009234) == 0x92340000
    ensures Target(0x20123456) == 0x1234560000000000000000000000000000000000000000000000000000000000
  {
    SmallTargets();
    LargeTargets();
  }

  lemma SmallTargets()
    ensures Target(0) == 0 && Target(0x00123456) == 0 && Target(0x01003456) == 0 && Target(0x02000056) == 0
    ensures Target(0x01123456) == 0x12 && Target(0x01fedcba) == 0x7e && Target(0x02123456) == 0x1234
    ensures Target(0x03123456) == 0x123456
  {
    Compact.SmallBytes();
  }

  lemma LargeTargets()
    ensures Target(0x04123456) == 0x12345600 && Target(0x04923456) == 0x12345600 && Target(0x05009234) == 0x92340000
    ensures Target(0x20123456) == 0x1234560000000000000000000000000000000000000000000000000000000000
  {
    Compact.SmallBytes();
    TwentyNine();
  }

  lemma TwentyNine()
    ensures Compact.Bytes(29) == 0x1_0000000000_0000000000_0000000000_0000000000_0000000000_00000000
  {
    Compact.SmallBytes();
    Compact.BytesAdd(3, 3);
    Compact.BytesAdd(6, 6);
    Compact.BytesAdd(12, 12);
    Compact.BytesAdd(24, 3);
    Compact.BytesAdd(27, 2);
  }

  lemma FormIs(v: nat, n: nat, low: nat, high: nat, m: nat)
    requires low == (if n == 0 then 0 else Compact.Bytes(n - 1)) && high == Compact.Bytes(n)
    requires low <= v < high
    requires n <= 3 ==> m == v * Compact.Bytes(3 - n)
    requires n > 3 ==> v == m * Compact.Bytes(n - 3)
    ensures Compact.Squeeze(v) == Compact.ClearOfSign(n, m)
  {
    Compact.ByteLenIs(v, n);
    if n > 3 { Compact.ShrinkExact(m, Compact.Bytes(n - 3)); }
  }

  /** The compact forms that the tests write. */
  lemma Forms()
    ensures Compact.Squeeze(0) == Compact.Form(0, 0) && Compact.Squeeze(0x12) == Compact.Form(1, 0x120000)
    ensures Compact.Squeeze(0x80) == Compact.Form(2, 0x8000) && Compact.Squeeze(0x7e) == Compact.Form(1, 0x7e0000)
    ensures Compact.Squeeze(0x1234) == Compact.Form(2, 0x123400)
    ensures Compact.Squeeze(0x123456) == Compact.Form(3, 0x123456)
    ensures Compact.Squeeze(0x12345600) == Compact.Form(4, 0x123456)
    ensures Compact.Squeeze(0x92340000) == Compact.Form(5, 0x009234)
    ensures Compact.Squeeze(0x1234560000000000000000000000000000000000000000000000000000000000)
              == Compact.Form(32, 0x123456)
  {
    Compact.SmallBytes();
    FormIs(0, 0, 0, 1, 0);
    FormIs(0x12, 1, 1, 256, 0x120000);
    FormIs(0x80, 1, 1, 256, 0x800000);
    FormIs(0x7e, 1, 1, 256, 0x7e0000);
    FormIs(0x1234, 2, 256, 0x10000, 0x123400);
    FormIs(0x123456, 3, 0x10000, 0x1000000, 0x123456);
    LargeForms();
  }

  lemma LargeForms()
    ensures Compact.Squeeze(0x12345600) == Compact.Form(4, 0x123456)
    ensures Compact.Squeeze(0x92340000) == Compact.Form(5, 0x009234)
    ensures Compact.Squeeze(0x1234560000000000000000000000000000000000000000000000000000000000)
              == Compact.Form(32, 0x123456)
  {
    FourBytes();
    ThirtyTwo();
  }

  lemma FourBytes()
    ensures Compact.Squeeze(0x12345600) == Compact.Form(4, 0x123456)
    ensures Compact.Squeeze(0x92340000) == Compact.Form(5, 0x009234)
  {
    Compact.SmallBytes();
    FormIs(0x12345600, 4, 0x1000000, 0x100000000, 0x123456);
    FormIs(0x92340000, 4, 0x1000000, 0x100000000, 0x923400);
  }

  lemma ThirtyTwo()
    ensures Compact.Squeeze(0x1234560000000000000000000000000000000000000000000000000000000000)
              == Compact.Form(32, 0x123456)
  {
    TwentyNine();
    Compact.SmallBytes();
    Compact.BytesAdd(29, 2);
    Compact.BytesAdd(29, 3);
    FormIs(0x1234560000000000000000000000000000000000000000000000000000000000, 32, Compact.Bytes(31), Compact.Bytes(32),
           0x123456);
  }
}

/** The compact forms of amounts, scripts and transaction outputs. */
module Compressor {
  import opened Bits
  import opened Wrappers
  import opened Serial
  import opened CoinsData

  // ---- amounts ----

  const WRAP64 := 0x1_0000_0000_0000_0000
  const MAX_MONEY := 21_000_000 * 100_000_000

  /** b times 10 to the power e. */
  function Scale(b: nat, e: nat): (n: nat)
    ensures n >= b
  {
    if e == 0 then b else 10 * Scale(b, e - 1)
  }

  datatype Scaled = Scaled(m: nat, e: nat)

  /** Divide by the largest power of ten, up to the ninth. */
  function Reduce(n: nat, e: nat): Scaled
    requires e <= 9
    decreases 9 - e
  {
    if n % 10 == 0 && e < 9 then Reduce(n / 10, e + 1) else Scaled(n, e)
  }

  function Compact(s: Scaled): nat
    requires s.m > 0 && (s.e < 9 ==> s.m % 10 != 0)
  {
    if s.e < 9 then 1 + (s.m / 10 * 9 + s.m % 10 - 1) * 10 + s.e else 1 + (s.m - 1) * 10 + 9
  }

  /** The compact amount, of any size. */
  function CompactAmount(n: nat): nat {
    if n == 0 then 0 else
      ReduceIs(n, 0);
      Compact(Reduce(n, 0))
  }

  function Expand(x: nat): Scaled
    requires x > 0
  {
    var e, y := (x - 1) % 10, (x - 1) / 10;
    Scaled(if e < 9 then y / 9 * 10 + y % 9 + 1 else y + 1, e)
  }

  function ExpandAmount(x: nat): nat {
    if x == 0 then 0 else Scale(Expand(x).m, Expand(x).e)
  }

  lemma {:induction false} ReduceIs(n: nat, e: nat)
    requires n > 0 && e <= 9
    ensures var r := Reduce(n, e);
            e <= r.e <= 9 && r.m > 0 && (r.e < 9 ==> r.m % 10 != 0) && Scale(r.m, r.e - e) == n
    decreases 9 - e
  {
    if n % 10 == 0 && e < 9 { ReduceIs(n / 10, e + 1); }
  }

  lemma {:induction false} ReduceScaled(b: nat, k: nat, e: nat)
    requires e + k <= 9 && b > 0 && (e + k < 9 ==> b % 10 != 0)
    ensures Reduce(Scale(b, k), e) == Scaled(b, e + k)
    decreases k
  {
    if k > 0 { ReduceScaled(b, k - 1, e + 1); }
  }

  /** The two forms of an amount determine each other. */
  lemma AmountsMatch(n: nat, x: nat)
    ensures ExpandAmount(CompactAmount(n)) == n
    ensures CompactAmount(ExpandAmount(x)) == x
  {
    if n > 0 {
      ReduceIs(n, 0);
      ExpandCompact(Reduce(n, 0));
    }
    if x > 0 {
      var s := Expand(x);
      CompactExpand(x);
      ReduceScaled(s.m, s.e, 0);
    }
  }

  lemma ExpandCompact(s: Scaled)
    requires s.m > 0 && s.e <= 9 && (s.e < 9 ==> s.m % 10 != 0)
    ensures Compact(s) > 0 && Expand(Compact(s)) == s
  {
    if s.e < 9 {
      var q, d := s.m / 10, s.m % 10;
      assert (Compact(s) - 1) / 10 == q * 9 + d - 1 && (Compact(s) - 1) % 10 == s.e;
      assert (q * 9 + d - 1) / 9 == q && (q * 9 + d - 1) % 9 == d - 1;
    }
  }

  lemma CompactExpand(x: nat)
    requires x > 0
    ensures var s := Expand(x); s.m > 0 && s.e <= 9 && (s.e < 9 ==> s.m % 10 != 0) && Compact(s) == x
  {
    var e, y := (x - 1) % 10, (x - 1) / 10;
    if e < 9 {
      var m := y / 9 * 10 + y % 9 + 1;
      assert m / 10 == y / 9 && m % 10 == y % 9 + 1;
    }
  }

  function Pow10(e: nat): nat { if e == 0 then 1 else 10 * Pow10(e - 1) }

  lemma {:induction false} ScaleIs(b: nat, e: nat)
    ensures Scale(b, e) == b * Pow10(e)
  {
    if e > 0 {
      ScaleIs(b, e - 1);
      assert 10 * (b * Pow10(e - 1)) == b * (10 * Pow10(e - 1));
    }
  }

  /** The compact form of an amount with its trailing zeros, as far as nine of them, split off. */
  lemma CompactFormIs(m: nat, e: nat)
    requires m > 0 && e <= 9 && (e < 9 ==> m % 10 != 0)
    ensures CompactAmount(m * Pow10(e))
              == if e < 9 then 1 + 10 * (9 * (m / 10) + m % 10 - 1) + e else 1 + 10 * (m - 1) + 9
  {
    ScaleIs(m, e);
    ReduceScaled(m, e, 0);
  }

  /** No valid amount overflows its 64 bits. */
  lemma AmountFits(n: nat)
    ensures CompactAmount(n) <= 9 * n + 9
    ensures n <= MAX_MONEY ==> CompactAmount(n) < WRAP64
  {
    if n > 0 { ReduceIs(n, 0); }
  }

  method CompressAmount(amount: nat) returns (r: nat)
    requires amount < WRAP64
    ensures r == CompactAmount(amount) % WRAP64
  {
    if amount == 0 { return 0; }
    var n, e: nat := amount, 0;
    ReduceIs(amount, 0);
    while n % 10 == 0 && e < 9
      invariant n > 0 && e <= 9 && Reduce(n, e) == Reduce(amount, 0)
      decreases 9 - e
    {
      n := n / 10;
      e := e + 1;
    }
    if e < 9 {
      var d := n % 10;
      assert 1 <= d <= 9;
      n := n / 10;
      r := (1 + (n * 9 + d - 1) * 10 + e) % WRAP64;
    } else {
      r := (1 + (n - 1) * 10 + 9) % WRAP64;
    }
  }

  method DecompressAmount(compact: nat) returns (n: nat)
    requires compact < WRAP64
    ensures n == ExpandAmount(compact) % WRAP64
  {
    if compact == 0 { return 0; }
    var x := compact - 1;
    var e := x % 10;
    x := x / 10;
    if e < 9 {
      var d := x % 9 + 1;
      x := x / 9;
      n := (x * 10 + d) % WRAP64;
    } else {
      n := (x + 1) % WRAP64;
    }
    ghost var m, k := Expand(compact).m, 0;
    while e > 0
      invariant 0 <= e && e + k == Expand(compact).e && n == Scale(m, k) % WRAP64
    {
      TenTimesWraps(Scale(m, k));
      n := (n * 10) % WRAP64;
      e := e - 1;
      k := k + 1;
    }
  }

  lemma TenTimesWraps(x: nat)
    ensures (x % WRAP64 * 10) % WRAP64 == (10 * x) % WRAP64
  {
    var q, r := x / WRAP64, x % WRAP64;
    var t, u := (r * 10) / WRAP64, (r * 10) % WRAP64;
    assert 10 * x == (10 * q + t) * WRAP64 + u;
    DivUnique(10 * x, WRAP64, 10 * q + t, u);
  }

  /** The machine functions undo each other wherever the compact amount fits in 64 bits. */
  lemma AmountRoundTrip(n: nat)
    requires n < WRAP64 && CompactAmount(n) < WRAP64
    ensures ExpandAmount(CompactAmount(n) % WRAP64) % WRAP64 == n
  {
    AmountsMatch(n, 0);
    Fits64(CompactAmount(n));
    Fits64(n);
  }

  /** And in the other direction wherever the amount fits. */
  lemma CompactRoundTrip(x: nat)
    requires x < WRAP64 && ExpandAmount(x) < WRAP64
    ensures CompactAmount(ExpandAmount(x) % WRAP64) % WRAP64 == x
  {
    AmountsMatch(0, x);
    Fits64(ExpandAmount(x));
    Fits64(x);
  }

  lemma Fits64(x: nat)
    requires x < WRAP64
    ensures x % WRAP64 == x
  {
  }

  // ---- scripts ----

  const OP_DUP: byte := 0x76
  const OP_EQUAL: byte := 0x87
  const OP_EQUALVERIFY: byte := 0x88
  const OP_HASH160: byte := 0xa9
  const OP_CHECKSIG: byte := 0xac
  const SPECIAL_SCRIPTS := 6

  /** Public-key arithmetic: whether a key is fully valid, and the full form of a compressed one. */
  datatype Curve = Curve(fullyValid: seq<byte> -> bool, decompress: seq<byte> -> Option<seq<byte>>)

  function ShortKey(k: seq<byte>): (s: seq<byte>)
    requires |k| == 65
  {
    [2 + k[64] % 2] + k[1..33]
  }

  /** Compressing a fully valid key loses nothing, and decompressed keys have 65 bytes. */
  ghost predicate Lawful(c: Curve) {
    && (forall k :: |k| == 65 && k[0] == 4 && c.fullyValid(k) ==> c.decompress(ShortKey(k)) == Some(k))
    && (forall k :: c.decompress(k).Some? ==> |c.decompress(k).value| == 65)
  }

  predicate IsToKeyID(s: seq<byte>) {
    |s| == 25 && s[0] == OP_DUP && s[1] == OP_HASH160 && s[2] == 20 && s[23] == OP_EQUALVERIFY && s[24] == OP_CHECKSIG
  }

  predicate IsToScriptID(s: seq<byte>) {
    |s| == 23 && s[0] == OP_HASH160 && s[1] == 20 && s[22] == OP_EQUAL
  }

  /** The public key that a script pays to, when it can be represented in compressed form. */
  function ToPubKey(s: seq<byte>, c: Curve): (r: Option<seq<byte>>)
    ensures r.Some? ==> |r.value| == 33 || |r.value| == 65
  {
    if |s| == 35 && s[0] == 33 && s[34] == OP_CHECKSIG && (s[1] == 2 || s[1] == 3) then Some(s[1..34])
    else if |s| == 67 && s[0] == 65 && s[66] == OP_CHECKSIG && s[1] == 4 && c.fullyValid(s[1..66]) then Some(s[1..66])
    else None
  }

  function Compress(s: seq<byte>, c: Curve): (r: Option<seq<byte>>)
    ensures r.Some? ==> |r.value| > 0 && r.value[0] < SPECIAL_SCRIPTS && |r.value| == 1 + SpecialSize(r.value[0])
  {
    if IsToKeyID(s) then Some([0] + s[3..23])
    else if IsToScriptID(s) then Some([1] + s[2..22])
    else
      match ToPubKey(s, c)
      case None => None
      case Some(k) =>
        if k[0] == 2 || k[0] == 3 then Some([k[0]] + k[1..33]) else Some([4 + k[64] % 2] + k[1..33])
  }

  function SpecialSize(nSize: nat): nat { if nSize <= 1 then 20 else if nSize <= 5 then 32 else 0 }

  /** The script that a special form stands for; for the last two, when the key decompresses. */
  function Decompressed(nSize: nat, v: seq<byte>, c: Curve): Option<seq<byte>>
    requires nSize < SPECIAL_SCRIPTS && |v| == SpecialSize(nSize)
  {
    if nSize == 0 then Some([OP_DUP, OP_HASH160, 20] + v + [OP_EQUALVERIFY, OP_CHECKSIG])
    else if nSize == 1 then Some([OP_HASH160, 20] + v + [OP_EQUAL])
    else if nSize <= 3 then Some([33, nSize] + v + [OP_CHECKSIG])
    else
      match c.decompress([nSize - 2] + v)
      case None => None
      case Some(k) => Some([65] + k + [OP_CHECKSIG])
  }

  method CopyInto(a: array<byte>, at: nat, v: seq<byte>)
    requires at + |v| <= a.Length
    modifies a
    ensures a[..] == old(a[..at]) + v + old(a[at + |v|..])
  {
    for i := 0 to |v|
      invariant a[..] == old(a[..at]) + v[..i] + old(a[at + i..])
    {
      a[at + i] := v[i];
    }
  }

  /** The script is rebuilt in place; it is left alone when a key does not decompress. */
  method Decompress(nSize: nat, v: seq<byte>, c: Curve) returns (r: Option<seq<byte>>)
    requires nSize < SPECIAL_SCRIPTS && |v| == SpecialSize(nSize) && Lawful(c)
    ensures r == Decompressed(nSize, v, c)
    ensures nSize >= 4 ==> if c.decompress([nSize - 2] + v).None? then r == None
                           else r == Some([65] + c.decompress([nSize - 2] + v).value + [0xac])
  {
    if nSize == 0 {
      var script := new byte[25](_ => 0);
      CopyInto(script, 3, v);
      script[0], script[1], script[2], script[23], script[24] := OP_DUP, OP_HASH160, 20, OP_EQUALVERIFY, OP_CHECKSIG;
      assert script[..] == [OP_DUP, OP_HASH160, 20] + v + [OP_EQUALVERIFY, OP_CHECKSIG];
      return Some(script[..]);
    } else if nSize == 1 {
      var script := new byte[23](_ => 0);
      CopyInto(script, 2, v);
      script[0], script[1], script[22] := OP_HASH160, 20, OP_EQUAL;
      assert script[..] == [OP_HASH160, 20] + v + [OP_EQUAL];
      return Some(script[..]);
    } else if nSize <= 3 {
      var script := new byte[35](_ => 0);
      CopyInto(script, 2, v);
      script[0], script[1], script[34] := 33, nSize, OP_CHECKSIG;
      assert script[..] == [33, nSize] + v + [OP_CHECKSIG];
      return Some(script[..]);
    }
    r := DecompressKey(nSize, v, c);
  }

  method DecompressKey(nSize: nat, v: seq<byte>, c: Curve) returns (r: Option<seq<byte>>)
    requires 4 <= nSize <= 5 && |v| == 32 && Lawful(c)
    ensures r == Decompressed(nSize, v, c)
  {
    var vch := new byte[33](_ => 0);
    CopyInto(vch, 1, v);
    vch[0] := nSize - 2;
    assert vch[..] == [nSize - 2] + v;
    var pubkey := c.decompress(vch[..]);
    if pubkey.None? { return None; }
    assert |pubkey.value| == 65;
    var script := new byte[67](_ => 0);
    CopyInto(script, 1, pubkey.value);
    script[0], script[66] := 65, OP_CHECKSIG;
    assert script[..] == [65] + pubkey.value + [OP_CHECKSIG];
    r := Some(script[..]);
  }

  /** Decompressing a compressed script gives back every byte of it. */
  lemma ScriptRestored(s: seq<byte>, c: Curve)
    requires Lawful(c) && Compress(s, c).Some?
    ensures var z := Compress(s, c).value; Decompressed(z[0], z[1..], c) == Some(s)
  {
    var z := Compress(s, c).value;
    var v := z[1..];
    if IsToKeyID(s) {
      assert s == [OP_DUP, OP_HASH160, 20] + v + [OP_EQUALVERIFY, OP_CHECKSIG];
    } else if IsToScriptID(s) {
      assert s == [OP_HASH160, 20] + v + [OP_EQUAL];
    } else {
      var k := ToPubKey(s, c).value;
      if |s| == 35 {
        assert v == s[2..34];
        assert s == [33, k[0]] + v + [OP_CHECKSIG];
      } else {
        assert [z[0] - 2] + v == ShortKey(k);
        assert s == [65] + k + [OP_CHECKSIG];
      }
    }
  }

  /** The scripts that have a special form, and their forms: those that pay to the hash of a key (0) or of a
      script (1), to a compressed public key (2 and 3), or to a full one, when it is valid (4 and 5). */
  ghost predicate HasForm(s: seq<byte>, z: seq<byte>, c: Curve) {
    || (|z| == 21 && z[0] == 0 && s == [0x76, 0xa9, 20] + z[1..] + [0x88, 0xac])
    || (|z| == 21 && z[0] == 1 && s == [0xa9, 20] + z[1..] + [0x87])
    || (|z| == 33 && (z[0] == 2 || z[0] == 3) && s == [33] + z + [0xac])
    || (|s| == 67 && s[1] == 4 && c.fullyValid(s[1..66]) && s == [65] + s[1..66] + [0xac]
        && z == [4 + s[65] % 2] + s[2..34])
  }

  lemma FormFound(s: seq<byte>, z: seq<byte>, c: Curve)
    requires HasForm(s, z, c)
    ensures Compress(s, c) == Some(z)
  {
    if |z| == 21 && z[0] == 0 && s == [0x76, 0xa9, 20] + z[1..] + [0x88, 0xac] {
      assert IsToKeyID(s) && s[3..23] == z[1..];
      assert [0] + s[3..23] == z;
    } else if |z| == 21 && z[0] == 1 && s == [0xa9, 20] + z[1..] + [0x87] {
      assert IsToScriptID(s) && s[2..22] == z[1..];
      assert [1] + s[2..22] == z;
    } else if |z| == 33 && (z[0] == 2 || z[0] == 3) && s == [33] + z + [0xac] {
      assert s[1..34] == z && [z[0]] + z[1..33] == z;
    } else {
      assert s[1..66][1..33] == s[2..34] && s[1..66][64] == s[65];
    }
  }

  lemma FormIsOf(s: seq<byte>, c: Curve)
    requires Compress(s, c).Some?
    ensures HasForm(s, Compress(s, c).value, c)
  {
    var z := Compress(s, c).value;
    if IsToKeyID(s) {
      assert s == [0x76, 0xa9, 20] + z[1..] + [0x88, 0xac];
    } else if IsToScriptID(s) {
      assert s == [0xa9, 20] + z[1..] + [0x87];
    } else if |s| == 35 {
      assert z == s[1..34] && s == [33] + z + [0xac];
    } else {
      assert s == [65] + s[1..66] + [0xac] && z[1..] == s[1..66][1..33] == s[2..34];
      assert z == [4 + s[65] % 2] + s[2..34];
    }
  }

  /** A script is compressed to z exactly when z is its special form. */
  lemma CompressedExactly(s: seq<byte>, z: seq<byte>, c: Curve)
    ensures Compress(s, c) == Some(z) <==> HasForm(s, z, c)
  {
    if Compress(s, c) == Some(z) { FormIsOf(s, c); }
    if HasForm(s, z, c) { FormFound(s, z, c); }
  }

  /** Compressing a decompressed script gives back the form it came from; a full key must be valid for that,
      and its compressed form the one it was decompressed from. */
  lemma FormRestored(nSize: nat, v: seq<byte>, c: Curve)
    requires nSize < 6 && |v| == SpecialSize(nSize) && Lawful(c)
    requires nSize >= 4 ==> c.decompress([nSize - 2] + v).Some?
    ensures Decompressed(nSize, v, c).Some?
    ensures var r := Compress(Decompressed(nSize, v, c).value, c) == Some([nSize] + v);
            if nSize <= 3 then r
            else
              var k := c.decompress([nSize - 2] + v).value;
              |k| == 65 && (r <==> k[0] == 4 && c.fullyValid(k) && ShortKey(k) == [nSize - 2] + v)
  {
    var s, z := Decompressed(nSize, v, c).value, [nSize] + v;
    assert z[1..] == v;
    CompressedExactly(s, z, c);
    if nSize >= 4 {
      var k := c.decompress([nSize - 2] + v).value;
      assert s[1..66] == k && s[2..34] == k[1..33];
      ShortKeyForm(k, nSize, v);
    } else if nSize >= 2 {
      assert s == [33] + z + [0xac];
    }
  }

  lemma ShortKeyForm(k: seq<byte>, nSize: nat, v: seq<byte>)
    requires |k| == 65 && 4 <= nSize <= 5 && |v| == 32
    ensures ShortKey(k) == [nSize - 2] + v <==> [nSize] + v == [4 + k[64] % 2] + k[1..33]
  {
    var a, b := [2 + k[64] % 2], [4 + k[64] % 2];
    assert (a + k[1..33])[1..] == k[1..33] && (b + k[1..33])[1..] == k[1..33];
    assert ([nSize - 2] + v)[1..] == v && ([nSize] + v)[1..] == v;
  }

  function EncodeScript(s: seq<byte>, c: Curve): seq<byte> {
    match Compress(s, c)
    case Some(z) => z
    case None => VarInt(|s| + SPECIAL_SCRIPTS) + s
  }

  /** An undecompressible key leaves the script as it was, that is, empty. */
  function ParseScript(d: seq<byte>, c: Curve): Parsed<seq<byte>> {
    match ParseVarInt(d, 32)
    case Fail => Fail
    case Got(nSize, rest) =>
      if nSize < SPECIAL_SCRIPTS then
        var n := SpecialSize(nSize);
        if |rest| < n then Fail
        else
          match Decompressed(nSize, rest[..n], c)
          case None => Got([], rest[n..])
          case Some(s) => Got(s, rest[n..])
      else if |rest| < nSize - SPECIAL_SCRIPTS then Fail
      else Got(rest[..nSize - SPECIAL_SCRIPTS], rest[nSize - SPECIAL_SCRIPTS..])
  }

  /** A script is written as its special form, if it has one, or else as its size, plus six, and its bytes. */
  lemma ScriptFraming(s: seq<byte>, c: Curve)
    ensures forall z :: HasForm(s, z, c) ==> EncodeScript(s, c) == z
    ensures (forall z :: !HasForm(s, z, c)) ==> EncodeScript(s, c) == VarInt(|s| + 6) + s
  {
    forall z | HasForm(s, z, c) ensures EncodeScript(s, c) == z {
      FormFound(s, z, c);
    }
    if Compress(s, c).Some? { FormIsOf(s, c); }
  }

  /** The bytes that follow a size. */
  function BodySize(nSize: nat): nat { if nSize <= 1 then 20 else if nSize <= 5 then 32 else nSize - 6 }

  /** What is read: after its size, a script of that form, or raw; nothing for a key that does not decompress. */
  lemma ScriptParses(d: seq<byte>, c: Curve)
    requires Lawful(c)
    ensures match ParseVarInt(d, 32)
            case Fail => ParseScript(d, c) == Fail
            case Got(nSize, r) =>
              if |r| < BodySize(nSize) then ParseScript(d, c) == Fail
              else
                var v := r[..BodySize(nSize)];
                && ParseScript(d, c).Got? && ParseScript(d, c).rest == r[BodySize(nSize)..]
                && var s := ParseScript(d, c).value;
                   if nSize >= 6 then s == v
                   else if nSize <= 3 then HasForm(s, [nSize] + v, c)
                   else if c.decompress([nSize - 2] + v).None? then s == []
                   else s == [65] + c.decompress([nSize - 2] + v).value + [0xac]
  {
    match ParseVarInt(d, 32)
    case Fail =>
    case Got(nSize, r) =>
      if nSize < 4 && |r| >= BodySize(nSize) {
        var v := r[..BodySize(nSize)];
        FormRestored(nSize, v, c);
        CompressedExactly(Decompressed(nSize, v, c).value, [nSize] + v, c);
      }
  }

  lemma ScriptRoundTrip(s: seq<byte>, rest: seq<byte>, c: Curve)
    requires Lawful(c) && |s| + SPECIAL_SCRIPTS < 0x1_0000_0000
    ensures ParseScript(EncodeScript(s, c) + rest, c) == Got(s, rest)
  {
    TwoTo32();
    if Compress(s, c).Some? {
      ScriptRestored(s, c);
      SpecialRoundTrip(s, Compress(s, c).value, rest, c);
    } else {
      VarIntRoundTrip(|s| + SPECIAL_SCRIPTS, s + rest, 32);
      assert EncodeScript(s, c) + rest == VarInt(|s| + SPECIAL_SCRIPTS) + (s + rest);
      assert (s + rest)[..|s|] == s && (s + rest)[|s|..] == rest;
    }
  }

  lemma SpecialRoundTrip(s: seq<byte>, z: seq<byte>, rest: seq<byte>, c: Curve)
    requires |z| > 0 && z[0] < SPECIAL_SCRIPTS && |z| == 1 + SpecialSize(z[0])
    requires Decompressed(z[0], z[1..], c) == Some(s)
    ensures ParseScript(z + rest, c) == Got(s, rest)
  {
    var n, d := z[0], z[1..] + rest;
    TwoTo32();
    VarIntRoundTrip(n, d, 32);
    assert z + rest == VarInt(n) + d;
    assert d[..SpecialSize(n)] == z[1..] && d[SpecialSize(n)..] == rest;
  }

  method WriteScript(os: Stream, s: seq<byte>, c: Curve)
    requires |s| + SPECIAL_SCRIPTS < 0x1_0000_0000
    modifies os
    ensures os.data == old(os.data) + EncodeScript(s, c)
  {
    var compr := Compress(s, c);
    if compr.Some? {
      os.WriteAll(compr.value);
      return;
    }
    TwoTo32();
    WriteVarInt(os, |s| + SPECIAL_SCRIPTS, 32);
    os.WriteAll(s);
  }

  method ReadScript(is_: Stream, c: Curve) returns (r: Option<seq<byte>>)
    requires Lawful(c)
    modifies is_
    ensures var p := ParseScript(old(is_.data), c);
            if p.Got? then r == Some(p.value) && is_.data == p.rest else r == None
  {
    var size := ReadVarInt(is_, 32);
    if size.None? { return None; }
    if size.value < SPECIAL_SCRIPTS {
      var vch := is_.Read(SpecialSize(size.value));
      if vch.None? { return None; }
      var script := Decompress(size.value, vch.value, c);
      return if script.Some? then script else Some([]);
    }
    r := is_.Read(size.value - SPECIAL_SCRIPTS);
  }

  // ---- outputs ----

  /** The 64-bit pattern of a signed amount, and the amount of a pattern. */
  function Unsigned64(n: int): (r: nat)
    ensures r < 0x1_0000_0000_0000_0000
    ensures 0 <= n < 0x1_0000_0000_0000_0000 ==> r == n
    ensures -0x1_0000_0000_0000_0000 <= n < 0 ==> r == n + 0x1_0000_0000_0000_0000
  {
    n % WRAP64
  }

  function Signed64(n: nat): (r: int)
    ensures n < 0x1_0000_0000_0000_0000 ==>
              && -0x8000_0000_0000_0000 <= r < 0x8000_0000_0000_0000
              && (r == n || r == n - 0x1_0000_0000_0000_0000)
  {
    if n >= 0x8000_0000_0000_0000 then n - WRAP64 else n
  }

  function EncodeTxOut(o: TxOut, c: Curve): seq<byte> {
    VarInt(CompactAmount(Unsigned64(o.nValue)) % WRAP64) + EncodeScript(o.scriptPubKey, c)
  }

  function ParseTxOut(d: seq<byte>, c: Curve): Parsed<TxOut> {
    match ParseVarInt(d, 64)
    case Fail => Fail
    case Got(x, rest) =>
      match ParseScript(rest, c)
      case Fail => Fail
      case Got(s, more) => Got(TxOut(Signed64(ExpandAmount(x) % WRAP64), s), more)
  }

  /** What the amount of an output is read back as. */
  function AmountBack(n: int): int {
    Signed64(ExpandAmount(CompactAmount(Unsigned64(n)) % WRAP64) % WRAP64)
  }

  /** What fits the fields of an output: a signed 64-bit amount, and a script of bounded length. */
  predicate Encodable(o: TxOut) {
    -0x8000_0000_0000_0000 <= o.nValue < 0x8000_0000_0000_0000 && |o.scriptPubKey| + SPECIAL_SCRIPTS < 0x1_0000_0000
  }

  lemma TwoTo64()
    ensures Pow2(64) == WRAP64
  {
    TwoTo32();
    Pow2Add(32, 32);
  }

  /** Reading a written output gives its script, and whatever its amount comes back as. */
  lemma TxOutRoundTrip(o: TxOut, rest: seq<byte>, c: Curve)
    requires Lawful(c) && Encodable(o)
    ensures ParseTxOut(EncodeTxOut(o, c) + rest, c) == Got(o.(nValue := AmountBack(o.nValue)), rest)
  {
    var x, e := CompactAmount(Unsigned64(o.nValue)) % WRAP64, EncodeScript(o.scriptPubKey, c);
    TwoTo64();
    VarIntRoundTrip(x, e + rest, 64);
    assert EncodeTxOut(o, c) + rest == VarInt(x) + (e + rest);
    ScriptRoundTrip(o.scriptPubKey, rest, c);
  }

  method WriteTxOut(os: Stream, o: TxOut, c: Curve)
    requires |o.scriptPubKey| + SPECIAL_SCRIPTS < 0x1_0000_0000
    modifies os
    ensures os.data == old(os.data) + EncodeTxOut(o, c)
  {
    var nVal := CompressAmount(Unsigned64(o.nValue));
    TwoTo64();
    WriteVarInt(os, nVal, 64);
    WriteScript(os, o.scriptPubKey, c);
  }

  method ReadTxOut(is_: Stream, c: Curve) returns (r: Option<TxOut>)
    requires Lawful(c)
    modifies is_
    ensures var p := ParseTxOut(old(is_.data), c);
            if p.Got? then r == Some(p.value) && is_.data == p.rest else r == None
  {
    var x := ReadVarInt(is_, 64);
    if x.None? { return None; }
    ParsedFits(old(is_.data));
    var nValue := DecompressAmount(x.value);
    var script := ReadScript(is_, c);
    if script.None? { return None; }
    r := Some(TxOut(Signed64(nValue), script.value));
  }

  lemma ParsedFits(d: seq<byte>)
    ensures ParseVarInt(d, 64).Got? ==> ParseVarInt(d, 64).value < WRAP64
  {
    TwoTo64();
    ReadBelow(d, 0, WRAP64);
  }

  lemma {:induction false} ReadBelow(d: seq<byte>, acc: nat, m: nat)
    requires m > 0 && m % 128 == 0
    ensures ReadFrom(d, acc, m).Got? ==> ReadFrom(d, acc, m).value < m
  {
    if d != [] {
      RoomForDigit(acc, d[0] % 128, m);
      if d[0] >= 128 { ReadBelow(d[1..], ((acc * 128) % m + d[0] % 128 + 1) % m, m); }
    }
  }

  lemma RoomForDigit(x: nat, c: nat, m: nat)
    requires m > 0 && m % 128 == 0 && c < 128
    ensures (x * 128) % m + c < m
  {
    var k, t := m / 128, (x * 128) / m;
    assert m == k * 128;
    assert (x * 128) % m == 128 * (x - t * k) by { MulAssoc(t, k, 128); }
  }
}

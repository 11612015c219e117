/** Base 58 text, with and without a checksum. Both directions multiply a big-endian buffer of
    fixed size by one base and add a digit of the other; the size is a fixed ratio of the input. */
module Base58 {
  import opened Bits
  import opened Radix
  import opened Wrappers

  // ---- the alphabet ----

  /** All alphanumeric characters except for "0", "I", "O" and "l". */
  function Alphabet(): (r: string)
    ensures |r| == 58
  {
    "123456789" + "ABCDEFGHJKLM" + "NPQRSTUVWXYZ" + "abcdefghijkm" + "nopqrstuvwxyz"
  }

  /** All that matters of the alphabet. */
  ghost predicate IsAlphabet(abc: string) {
    && |abc| == 58 && abc[0] == '1'
    && (forall i, j :: 0 <= i < j < 58 ==> abc[i] < abc[j])
    && (forall k :: 0 <= k < 58 ==> !IsSpace(abc[k]))
  }

  /** The white space of the C locale. */
  predicate IsSpace(c: char) { c == ' ' || '\t' <= c <= '\r' }

  lemma Ascending(j: nat)
    requires j + 1 < 58
    ensures Alphabet()[j] < Alphabet()[j + 1]
  {
    var a, b, c, d, e := "123456789", "ABCDEFGHJKLM", "NPQRSTUVWXYZ", "abcdefghijkm", "nopqrstuvwxyz";
    assert Alphabet() == a + b + c + d + e;
    assert forall k :: 0 <= k < 8 ==> a[k] < a[k + 1];
    assert forall k :: 0 <= k < 11 ==> b[k] < b[k + 1];
    assert forall k :: 0 <= k < 11 ==> c[k] < c[k + 1];
    assert forall k :: 0 <= k < 11 ==> d[k] < d[k + 1];
    assert forall k :: 0 <= k < 12 ==> e[k] < e[k + 1];
  }

  lemma {:induction false} Ordered(i: nat, j: nat)
    requires i < j < 58
    ensures Alphabet()[i] < Alphabet()[j]
  {
    Ascending(j - 1);
    if i < j - 1 { Ordered(i, j - 1); }
  }

  lemma AlphabetIs()
    ensures IsAlphabet(Alphabet())
  {
    forall i, j | 0 <= i < j < 58
      ensures Alphabet()[i] < Alphabet()[j]
    {
      Ordered(i, j);
    }
    assert Alphabet()[0] == '1';
  }

  function IndexOf(abc: string, c: char, from: nat): (r: Option<nat>)
    requires from <= |abc|
    ensures r.Some? ==> from <= r.value < |abc| && abc[r.value] == c
    ensures r.None? ==> forall k :: from <= k < |abc| ==> abc[k] != c
    decreases |abc| - from
  {
    if from == |abc| then None else if abc[from] == c then Some(from) else IndexOf(abc, c, from + 1)
  }

  function Value(abc: string, c: char): (d: nat)
    ensures c in abc ==> d < |abc| && abc[d] == c
  {
    match IndexOf(abc, c, 0)
    case Some(d) => d
    case None => 0
  }

  lemma ValueOf(abc: string, d: nat)
    requires IsAlphabet(abc) && d < 58
    ensures abc[d] in abc && Value(abc, abc[d]) == d
  {
  }

  lemma OneIsZero(abc: string, c: char)
    requires IsAlphabet(abc)
    ensures c == '1' ==> c in abc && Value(abc, c) == 0
    ensures c in abc && Value(abc, c) == 0 ==> c == '1'
    ensures c in abc ==> !IsSpace(c)
  {
  }

  function Chars(abc: string, s: seq<nat>): (r: string)
    requires |abc| == 58 && DigitsIn(58, s)
    ensures |r| == |s| && forall k :: 0 <= k < |s| ==> r[k] == abc[s[k]]
  {
    seq(|s|, k requires 0 <= k < |s| => abc[s[k]])
  }

  function Values(abc: string, s: string): (r: seq<nat>)
    ensures |r| == |s| && forall k :: 0 <= k < |s| ==> r[k] == Value(abc, s[k])
  {
    seq(|s|, k requires 0 <= k < |s| => Value(abc, s[k]))
  }

  // ---- what the two directions mean ----

  /** A '1' for every leading zero byte, then the base-58 digits of the rest. */
  function Encode(abc: string, v: seq<byte>): string
    requires |abc| == 58
  {
    Repeat('1', Zeros(v)) + Chars(abc, Digits(58, Num(256, v)))
  }

  function Trim(s: string): (r: string)
    ensures r != [] ==> !IsSpace(r[0]) && !IsSpace(r[|r| - 1])
  {
    if s != [] && IsSpace(s[0]) then Trim(s[1..])
    else if s != [] && IsSpace(s[|s| - 1]) then Trim(s[..|s| - 1])
    else s
  }

  predicate AllIn(s: string, abc: string) { forall k :: 0 <= k < |s| ==> s[k] in abc }

  function Bytes(s: seq<nat>): (r: seq<byte>)
    requires DigitsIn(256, s)
    ensures r == s
  {
    seq(|s|, k requires 0 <= k < |s| => s[k] as byte)
  }

  /** The bytes that base-58 digits stand for: a zero byte for every leading zero. */
  function Unpack(d: seq<nat>): (v: seq<byte>) {
    Repeat(0 as byte, Zeros(d)) + Bytes(Digits(256, Num(58, d)))
  }

  /** Text is trimmed; every character left must be a digit. */
  function Decode(abc: string, s: string): Option<seq<byte>> {
    if AllIn(Trim(s), abc) then Some(Unpack(Values(abc, Trim(s)))) else None
  }

  // ---- writing text ----

  method EncodeBase58(v: seq<byte>) returns (str: string)
    ensures str == Encode(Alphabet(), v)
  {
    AlphabetIs();
    str := EncodeWith(Alphabet(), v);
  }

  method EncodeWith(abc: string, v: seq<byte>) returns (str: string)
    requires |abc| == 58
    ensures str == Encode(abc, v)
  {
    var p := 0;
    while p < |v| && v[p] == 0
      invariant 0 <= p <= |v| && forall k :: 0 <= k < p ==> v[k] == 0
    {
      p := p + 1;
    }
    ZerosIs(v, p);
    WithoutZeros(v, p);
    var b58 := FillDigits(v, p);
    DropZeros(58, b58[..]);
    str := WriteDigits(abc, b58, p);
  }

  method FillDigits(v: seq<byte>, p: nat) returns (b58: array<byte>)
    requires p <= |v|
    ensures DigitsIn(58, b58[..]) && Num(58, b58[..]) == Num(256, v[p..])
  {
    b58 := new byte[(|v| - p) * 138 / 100 + 1](_ => 0);
    NumAllZero(58, b58[..]);
    var q := p;
    while q < |v|
      invariant p <= q <= |v| && DigitsIn(58, b58[..])
      invariant Num(58, b58[..]) == Num(256, v[p..q])
    {
      EncodeFits(v, p, q, 58, 256);
      ShiftIn(b58, 58, 256, v[q]);
      q := q + 1;
    }
    assert v[p..q] == v[p..];
  }

  method WriteDigits(abc: string, b58: array<byte>, zeroes: nat) returns (str: string)
    requires |abc| == 58 && DigitsIn(58, b58[..])
    ensures str == Repeat('1', zeroes) + Chars(abc, b58[..][Zeros(b58[..])..])
  {
    var it := SkipZeros(b58, 0);
    str := Repeat('1', zeroes);
    ghost var from := it;
    while it < b58.Length
      invariant from <= it <= b58.Length
      invariant str == Repeat('1', zeroes) + Chars(abc, b58[from..it])
    {
      str := str + [abc[b58[it]]];
      it := it + 1;
    }
    assert b58[from..it] == b58[..][from..];
  }

  lemma WithoutZeros(v: seq<byte>, p: nat)
    requires p <= |v| && forall k :: 0 <= k < p ==> v[k] == 0
    ensures Num(256, v[p..]) == Num(256, v)
  {
    NumZeros(256, p, v[p..]);
    var s: seq<nat> := v;
    assert s == Repeat(0, p) + s[p..];
  }

  lemma EncodeFits(v: seq<byte>, p: nat, q: nat, b: nat, c: nat)
    requires p <= q < |v| && b == 58 && c == 256
    ensures Num(c, v[p..q]) * c + v[q] == Num(c, v[p..q + 1]) < Pow(b, DigitRoom(|v| - p))
  {
    var s: seq<nat> := v[p..q + 1];
    assert v[p..q + 1] == v[p..q] + [v[q]];
    NumSnoc(c, v[p..q], v[q]);
    EncodeBound(s, |v| - p, b, c);
  }

  lemma EncodeBound(s: seq<nat>, n: nat, b: nat, c: nat)
    requires b == 58 && c == 256 && DigitsIn(c, s) && |s| <= n
    ensures Num(c, s) < Pow(b, DigitRoom(n))
  {
    NumBound(c, s);
    PowGrow(c, |s|, n);
    EncodeRoom(n, b, c);
  }

  // ---- reading text ----

  /** Trimming is determined by where the white space at either end stops. */
  lemma {:induction false} TrimIs(s: string, a: nat, b: nat)
    requires a <= b <= |s|
    requires forall k :: 0 <= k < a ==> IsSpace(s[k])
    requires forall k :: b <= k < |s| ==> IsSpace(s[k])
    requires a < b ==> !IsSpace(s[a]) && !IsSpace(s[b - 1])
    ensures Trim(s) == s[a..b]
    decreases |s|
  {
    if s == [] {
    } else if IsSpace(s[0]) {
      if a > 0 {
        TrimIs(s[1..], a - 1, b - 1);
        SliceOfRest(s, a, b);
      } else {
        TrimIs(s[1..], 0, 0);
      }
    } else if IsSpace(s[|s| - 1]) {
      TrimIs(s[..|s| - 1], a, b);
    }
  }

  lemma SliceOfRest<T>(s: seq<T>, a: nat, b: nat)
    requires 0 < a <= b <= |s|
    ensures s[1..][a - 1..b - 1] == s[a..b]
  {
    var t := s[1..][a - 1..b - 1];
    forall k | 0 <= k < b - a ensures t[k] == s[a..b][k] {
      assert t[k] == s[1..][a - 1 + k] == s[a + k];
    }
  }

  /** What has text on both sides is not trimmed away. */
  lemma {:induction false} TrimKeeps(s: string, i: nat, k: nat, j: nat)
    requires i <= k <= j < |s| && !IsSpace(s[i]) && !IsSpace(s[j])
    ensures s[k] in Trim(s)
    decreases |s|
  {
    if IsSpace(s[0]) {
      TrimKeeps(s[1..], i - 1, k - 1, j - 1);
    } else if IsSpace(s[|s| - 1]) {
      TrimKeeps(s[..|s| - 1], i, k, j);
    }
  }

  lemma NotDecoded(abc: string, s: string, i: nat, k: nat, j: nat)
    requires i <= k <= j < |s| && !IsSpace(s[i]) && !IsSpace(s[j]) && s[k] !in abc
    ensures Decode(abc, s) == None
  {
    TrimKeeps(s, i, k, j);
  }

  /** The text is that of a C string. */
  method DecodeBase58(psz: string) returns (r: Option<seq<byte>>)
    ensures r == Decode(Alphabet(), psz)
  {
    AlphabetIs();
    r := DecodeWith(Alphabet(), psz);
  }

  method DecodeWith(abc: string, psz: string) returns (r: Option<seq<byte>>)
    requires IsAlphabet(abc)
    ensures r == Decode(abc, psz)
  {
    var start := SkipSpaces(psz, 0);
    var p := SkipOnes(abc, psz, start);
    var zeroes := p - start;
    var ok, end, b256 := FillBytes(abc, psz, p);
    if !ok {
      NotDecoded(abc, psz, end, end, end);
      return None;
    }
    p := SkipSpaces(psz, end);
    if p != |psz| {
      OneIsZero(abc, psz[end]);
      NotDecoded(abc, psz, start, end, p);
      return None;
    }
    Decoded(abc, psz, start, zeroes, end, b256[..]);
    var vch := WriteBytes(b256, zeroes);
    r := Some(vch);
  }

  method SkipSpaces(psz: string, from: nat) returns (p: nat)
    requires from <= |psz|
    ensures from <= p <= |psz| && (forall k :: from <= k < p ==> IsSpace(psz[k]))
    ensures p < |psz| ==> !IsSpace(psz[p])
  {
    p := from;
    while p < |psz| && IsSpace(psz[p])
      invariant from <= p <= |psz| && forall k :: from <= k < p ==> IsSpace(psz[k])
    {
      p := p + 1;
    }
  }

  method SkipOnes(abc: string, psz: string, start: nat) returns (p: nat)
    requires start <= |psz| && IsAlphabet(abc)
    ensures start <= p <= |psz| && (forall k :: start <= k < p ==> psz[k] == '1')
    ensures p < |psz| ==> psz[p] != '1'
    ensures forall k :: start <= k < p ==> psz[k] in abc && !IsSpace(psz[k])
  {
    p := start;
    while p < |psz| && psz[p] == '1'
      invariant start <= p <= |psz| && forall k :: start <= k < p ==> psz[k] == '1'
    {
      p := p + 1;
    }
    OneIsZero(abc, '1');
  }

  /** Digits without a space among them. */
  predicate IsWord(abc: string, psz: string, first: nat, p: nat) {
    first <= p <= |psz| && forall k :: first <= k < p ==> psz[k] in abc && !IsSpace(psz[k])
  }

  lemma LongerWord(abc: string, psz: string, first: nat, p: nat)
    requires IsWord(abc, psz, first, p) && p < |psz| && psz[p] in abc && !IsSpace(psz[p])
    ensures IsWord(abc, psz, first, p + 1)
  {
  }

  /** Read the word at first into a buffer, up to a space or to a character that is not a digit. */
  method FillBytes(abc: string, psz: string, first: nat) returns (ok: bool, p: nat, b256: array<byte>)
    requires first <= |psz| && |abc| == 58
    ensures IsWord(abc, psz, first, p)
    ensures !ok ==> p < |psz| && !IsSpace(psz[p]) && psz[p] !in abc
    ensures ok ==> DigitsIn(256, b256[..]) && Num(256, b256[..]) == Num(58, Values(abc, psz[first..p]))
    ensures ok && p < |psz| ==> IsSpace(psz[p])
  {
    b256 := new byte[(|psz| - first) * 733 / 1000 + 1](_ => 0);
    NumAllZero(256, b256[..]);
    p := first;
    while p < |psz| && !IsSpace(psz[p])
      invariant IsWord(abc, psz, first, p) && DigitsIn(256, b256[..])
      invariant Num(256, b256[..]) == Num(58, Values(abc, psz[first..p]))
    {
      var more := ReadDigit(abc, psz, first, p, b256);
      if !more { return false, p, b256; }
      LongerWord(abc, psz, first, p);
      p := p + 1;
    }
    ok := true;
  }

  method ReadDigit(abc: string, psz: string, first: nat, p: nat, b256: array<byte>) returns (ok: bool)
    requires first <= p < |psz| && b256.Length == ByteRoom(|psz| - first) && |abc| == 58
    requires DigitsIn(256, b256[..]) && Num(256, b256[..]) == Num(58, Values(abc, psz[first..p]))
    requires IsWord(abc, psz, first, p)
    modifies b256
    ensures ok <==> psz[p] in abc
    ensures ok ==> DigitsIn(256, b256[..]) && Num(256, b256[..]) == Num(58, Values(abc, psz[first..p + 1]))
  {
    var ch := IndexOf(abc, psz[p], 0);
    if ch.None? { return false; }
    DecodeFits(abc, psz, first, p, 58, 256);
    ShiftIn(b256, 256, 58, ch.value);
    ok := true;
  }

  lemma DecodeFits(abc: string, s: string, first: nat, p: nat, b: nat, c: nat)
    requires first <= p < |s| && b == 58 && c == 256 && |abc| == 58
    requires forall k :: first <= k <= p ==> s[k] in abc
    ensures Num(b, Values(abc, s[first..p])) * b + Value(abc, s[p]) == Num(b, Values(abc, s[first..p + 1]))
    ensures Num(b, Values(abc, s[first..p + 1])) < Pow(c, ByteRoom(|s| - first))
  {
    var v := Values(abc, s[first..p + 1]);
    assert s[first..p + 1] == s[first..p] + [s[p]];
    assert v == Values(abc, s[first..p]) + [Value(abc, s[p])];
    NumSnoc(b, Values(abc, s[first..p]), Value(abc, s[p]));
    DecodeBound(v, |s| - first, b, c);
  }

  lemma DecodeBound(s: seq<nat>, n: nat, b: nat, c: nat)
    requires b == 58 && c == 256 && DigitsIn(b, s) && |s| <= n
    ensures Num(b, s) < Pow(c, ByteRoom(n))
  {
    NumBound(b, s);
    PowGrow(b, |s|, n);
    DecodeRoom(n, b, c);
  }

  method WriteBytes(b256: array<byte>, zeroes: nat) returns (vch: seq<byte>)
    ensures vch == Repeat(0 as byte, zeroes) + b256[..][Zeros(b256[..])..]
  {
    var it := SkipZeros(b256, 0);
    ghost var from := it;
    vch := Repeat(0 as byte, zeroes);
    while it < b256.Length
      invariant from <= it <= b256.Length
      invariant vch == Repeat(0 as byte, zeroes) + b256[from..it]
    {
      vch := vch + [b256[it]];
      it := it + 1;
    }
    assert b256[from..it] == b256[..][from..];
  }

  lemma Decoded(abc: string, psz: string, start: nat, zeroes: nat, end: nat, s: seq<byte>)
    requires IsAlphabet(abc) && start <= start + zeroes <= end <= |psz| && DigitsIn(256, s)
    requires forall k :: 0 <= k < start ==> IsSpace(psz[k])
    requires forall k :: start <= k < end ==> psz[k] in abc && !IsSpace(psz[k])
    requires forall k :: end <= k < |psz| ==> IsSpace(psz[k])
    requires forall k :: start <= k < start + zeroes ==> psz[k] == '1'
    requires start + zeroes < end ==> psz[start + zeroes] != '1'
    requires Num(256, s) == Num(58, Values(abc, psz[start + zeroes..end]))
    ensures Decode(abc, psz) == Some(Repeat(0 as byte, zeroes) + s[Zeros(s)..])
  {
    TrimIs(psz, start, end);
    var c := psz[start..end];
    assert c[zeroes..] == psz[start + zeroes..end];
    LeadingOnes(abc, c, zeroes);
    Unpacked(Values(abc, c), zeroes, Values(abc, c[zeroes..]));
    DropZeros(256, s);
  }

  /** The leading ones of a word are its leading zero digits. */
  lemma LeadingOnes(abc: string, c: string, z: nat)
    requires z <= |c| && (forall k :: 0 <= k < z ==> c[k] == '1') && (z < |c| ==> c[z] != '1')
    requires IsAlphabet(abc) && AllIn(c, abc)
    ensures Zeros(Values(abc, c)) == z
    ensures Values(abc, c) == Repeat(0, z) + Values(abc, c[z..])
  {
    var d := Values(abc, c);
    forall k | 0 <= k < z ensures d[k] == 0 { OneIsZero(abc, c[k]); }
    if z < |c| { OneIsZero(abc, c[z]); }
    ZerosIs(d, z);
    SplitZeros(d, z, Values(abc, c[z..]));
  }

  lemma SplitZeros(d: seq<nat>, z: nat, rest: seq<nat>)
    requires z <= |d| && |rest| == |d| - z && forall k :: 0 <= k < |rest| ==> rest[k] == d[z + k]
    requires forall k :: 0 <= k < z ==> d[k] == 0
    ensures d == Repeat(0, z) + rest
  {
  }

  lemma Unpacked(d: seq<nat>, z: nat, rest: seq<nat>)
    requires d == Repeat(0, z) + rest && Zeros(d) == z
    ensures Unpack(d) == Repeat(0 as byte, z) + Digits(256, Num(58, rest))
  {
    NumZeros(58, z, rest);
  }

  // ---- the two directions undo each other ----

  lemma UnpackDigits(v: seq<byte>)
    ensures var d := Repeat(0, Zeros(v)) + Digits(58, Num(256, v)); Zeros(d) == Zeros(v) && Unpack(d) == v
  {
    var z, n := Zeros(v), Num(256, v);
    var o: seq<nat> := Repeat(0, z);
    var d := o + Digits(58, n);
    if n > 0 { NoLeadingZero(58, n); } else { assert Digits(58, n) == []; }
    ZerosIs(d, z);
    Unpacked(d, z, Digits(58, n));
    NumDigits(58, n);
    DropZeros(256, v);
  }

  lemma PackDigits(d: seq<nat>)
    requires DigitsIn(58, d)
    ensures var v := Unpack(d); Zeros(v) == Zeros(d) && Repeat(0, Zeros(v)) + Digits(58, Num(256, v)) == d
  {
    UnpackZeros(d, Zeros(d), Num(58, d));
    UnpackNum(d, Zeros(d), Num(58, d));
    DropZeros(58, d);
  }

  lemma UnpackZeros(d: seq<nat>, z: nat, n: nat)
    requires DigitsIn(58, d) && z == Zeros(d) && n == Num(58, d)
    ensures Zeros(Unpack(d)) == z
  {
    if n > 0 { NoLeadingZero(256, n); } else { assert Digits(256, n) == []; }
    ZerosIs(Unpack(d), z);
  }

  lemma UnpackNum(d: seq<nat>, z: nat, n: nat)
    requires DigitsIn(58, d) && z == Zeros(d) && n == Num(58, d)
    ensures Num(256, Unpack(d)) == n
  {
    var o: seq<nat>, w: seq<nat> := Repeat(0, z), Unpack(d);
    assert w == o + Digits(256, n);
    NumZeros(256, z, Digits(256, n));
    NumDigits(256, n);
  }

  /** Reading the characters of digits gives the digits back. */
  lemma ReadChars(abc: string, z: nat, d: seq<nat>)
    requires IsAlphabet(abc) && DigitsIn(58, d)
    ensures var e := Repeat('1', z) + Chars(abc, d);
            AllIn(e, abc) && Trim(e) == e && Values(abc, e) == Repeat(0, z) + d
  {
    var e := Repeat('1', z) + Chars(abc, d);
    forall k | 0 <= k < |e|
      ensures e[k] in abc && !IsSpace(e[k]) && Value(abc, e[k]) == if k < z then 0 else d[k - z]
    {
      ReadChar(abc, z, d, k);
    }
    TrimIs(e, 0, |e|);
    var o: seq<nat> := Repeat(0, z);
    assert Values(abc, e) == o + d;
  }

  lemma ReadChar(abc: string, z: nat, d: seq<nat>, k: nat)
    requires IsAlphabet(abc) && DigitsIn(58, d) && k < z + |d|
    ensures var e := Repeat('1', z) + Chars(abc, d);
            e[k] in abc && !IsSpace(e[k]) && Value(abc, e[k]) == if k < z then 0 else d[k - z]
  {
    var e := Repeat('1', z) + Chars(abc, d);
    if k >= z { ValueOf(abc, d[k - z]); } else { OneIsZero(abc, '1'); }
    OneIsZero(abc, e[k]);
  }

  /** Writing the digits that were read gives the text back. */
  lemma WriteValues(abc: string, c: string, z: nat, d: seq<nat>)
    requires IsAlphabet(abc) && AllIn(c, abc) && DigitsIn(58, d) && Values(abc, c) == Repeat(0, z) + d
    ensures c == Repeat('1', z) + Chars(abc, d)
  {
  }

  lemma DecodeOfEncode(abc: string, s: string, v: seq<byte>)
    requires IsAlphabet(abc) && Trim(s) == Encode(abc, v)
    ensures Decode(abc, s) == Some(v)
  {
    ReadChars(abc, Zeros(v), Digits(58, Num(256, v)));
    UnpackDigits(v);
  }

  lemma EncodeOfDecode(abc: string, s: string)
    requires IsAlphabet(abc) && Decode(abc, s).Some?
    ensures Trim(s) == Encode(abc, Decode(abc, s).value)
  {
    var d := Values(abc, Trim(s));
    PackDigits(d);
    WriteValues(abc, Trim(s), Zeros(Unpack(d)), Digits(58, Num(256, Unpack(d))));
  }

  lemma RoundTrip(v: seq<byte>)
    ensures Decode(Alphabet(), Encode(Alphabet(), v)) == Some(v)
  {
    AlphabetIs();
    ReadChars(Alphabet(), Zeros(v), Digits(58, Num(256, v)));
    DecodeOfEncode(Alphabet(), Encode(Alphabet(), v), v);
  }

  /** Text decodes to v exactly when, white space at its ends aside, it is the encoding of v; and
      every trimmed text over the alphabet decodes. */
  lemma DecodesIff(s: string, v: seq<byte>)
    ensures Decode(Alphabet(), s) == Some(v) <==> Trim(s) == Encode(Alphabet(), v)
    ensures Decode(Alphabet(), s).Some? <==> AllIn(Trim(s), Alphabet())
  {
    AlphabetIs();
    if Trim(s) == Encode(Alphabet(), v) { DecodeOfEncode(Alphabet(), s, v); }
    if Decode(Alphabet(), s).Some? { EncodeOfDecode(Alphabet(), s); }
  }

  /** White space only: tabs, line feeds, vertical tabs, form feeds, carriage returns and blanks. */
  predicate Blank(t: string) { forall k :: 0 <= k < |t| ==> t[k] as int in {9, 10, 11, 12, 13, 32} }

  lemma BlankIs(t: string)
    ensures Blank(t) <==> forall k :: 0 <= k < |t| ==> IsSpace(t[k])
  {
    forall k | 0 <= k < |t| ensures IsSpace(t[k]) <==> t[k] as int in {9, 10, 11, 12, 13, 32} {
      assert '\t' as int == 9 && '\r' as int == 13 && ' ' as int == 32;
    }
  }

  /** What Trim takes off. */
  lemma {:induction false} TrimSplits(s: string) returns (a: string, b: string)
    ensures Blank(a) && Blank(b) && s == a + Trim(s) + b
  {
    if s != [] && IsSpace(s[0]) {
      a, b := TrimSplits(s[1..]);
      BlankIs(a);
      a := [s[0]] + a;
      BlankIs(a);
    } else if s != [] && IsSpace(s[|s| - 1]) {
      a, b := TrimSplits(s[..|s| - 1]);
      BlankIs(b);
      b := b + [s[|s| - 1]];
      BlankIs(b);
    } else {
      a, b := "", "";
    }
  }

  lemma {:induction false} TrimBetween(a: string, t: string, b: string)
    requires Blank(a) && Blank(b) && (t != [] ==> !IsSpace(t[0]) && !IsSpace(t[|t| - 1]))
    ensures Trim(a + t + b) == t
    decreases |a| + |b|
  {
    var s := a + t + b;
    BlankIs(a);
    BlankIs(b);
    if a != [] {
      assert s[1..] == a[1..] + t + b && s[0] == a[0];
      TrimBetween(a[1..], t, b);
    } else if b != [] {
      assert s[|s| - 1] == b[|b| - 1];
      if t == [] {
        assert s[1..] == a + t + b[1..] && s[0] == b[0];
        TrimBetween(a, t, b[1..]);
      } else {
        assert s[..|s| - 1] == a + t + b[..|b| - 1] && s[0] == t[0];
        TrimBetween(a, t, b[..|b| - 1]);
      }
    } else {
      assert s == t;
    }
  }

  /** Text decodes to v exactly when it is the encoding of v with nothing but white space around it. */
  lemma DecodesAround(s: string, v: seq<byte>)
    ensures Decode(Alphabet(), s) == Some(v) <==>
              exists a, b :: Blank(a) && Blank(b) && s == a + Encode(Alphabet(), v) + b
  {
    var e := Encode(Alphabet(), v);
    DecodesIff(s, v);
    if Trim(s) == e {
      var a, b := TrimSplits(s);
    }
    if a, b :| Blank(a) && Blank(b) && s == a + e + b {
      AlphabetIs();
      ReadChars(Alphabet(), Zeros(v), Digits(58, Num(256, v)));
      assert Trim(e) == e;
      TrimBetween(a, e, b);
    }
  }

  predicate Alphanumeric(c: char) { '0' <= c <= '9' || 'A' <= c <= 'Z' || 'a' <= c <= 'z' }

  /** The digits are the alphanumeric characters but four, in the order of their codes. */
  lemma AlphabetChars(c: char)
    ensures c in Alphabet() <==> Alphanumeric(c) && c !in {'0', 'I', 'O', 'l'}
    ensures forall i, j :: 0 <= i < j < 58 ==> Alphabet()[i] < Alphabet()[j]
  {
    AlphabetIs();
    var a, b, d, e, f := "123456789", "ABCDEFGHJKLM", "NPQRSTUVWXYZ", "abcdefghijkm", "nopqrstuvwxyz";
    assert Alphabet() == a + b + d + e + f;
    assert c in Alphabet() <==> c in a || c in b || c in d || c in e || c in f;
  }

  // ---- with a checksum ----

  type Hash256 = h: seq<byte> | |h| == 32 witness Repeat(0 as byte, 32)

  function Checked(v: seq<byte>, hash: seq<byte> -> Hash256): seq<byte> { v + hash(v)[..4] }

  function DecodeCheck(s: string, hash: seq<byte> -> Hash256): Option<seq<byte>> {
    match Decode(Alphabet(), s)
    case None => None
    case Some(w) =>
      if |w| < 4 || hash(w[..|w| - 4])[..4] != w[|w| - 4..] then None else Some(w[..|w| - 4])
  }

  method EncodeBase58Check(v: seq<byte>, hash: seq<byte> -> Hash256) returns (str: string)
    ensures str == Encode(Alphabet(), Checked(v, hash))
  {
    var vch := v;
    var h := hash(vch);
    vch := vch + h[..4];
    str := EncodeBase58(vch);
  }

  method DecodeBase58Check(psz: string, hash: seq<byte> -> Hash256) returns (r: Option<seq<byte>>)
    ensures r == DecodeCheck(psz, hash)
  {
    r := DecodeBase58(psz);
    if r.None? || |r.value| < 4 { return None; }
    var n := |r.value| - 4;
    var h := hash(r.value[..n]);
    if h[..4] != r.value[n..] { return None; }
    r := Some(r.value[..n]);
  }

  /** Text passes the check with content v exactly when, trimmed, it is the checked encoding of v. */
  lemma CheckIff(s: string, v: seq<byte>, hash: seq<byte> -> Hash256)
    ensures DecodeCheck(s, hash) == Some(v) <==> Trim(s) == Encode(Alphabet(), Checked(v, hash))
    ensures DecodeCheck(s, hash) == Some(v) <==>
              Decode(Alphabet(), s) == Some(v + [hash(v)[0], hash(v)[1], hash(v)[2], hash(v)[3]])
  {
    var w := Checked(v, hash);
    assert hash(v)[..4] == [hash(v)[0], hash(v)[1], hash(v)[2], hash(v)[3]];
    DecodesIff(s, w);
    assert w[..|w| - 4] == v && w[|w| - 4..] == hash(v)[..4];
    if DecodeCheck(s, hash) == Some(v) {
      var x := Decode(Alphabet(), s).value;
      assert x == x[..|x| - 4] + x[|x| - 4..];
    }
  }
}

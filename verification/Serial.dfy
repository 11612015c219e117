/** Byte streams, and the variable-length integers written to them. */
module Serial {
  import opened Bits
  import opened Wrappers

  /** The outcome of reading: what was read and what is left, or an exception. */
  datatype Parsed<T> = Fail | Got(value: T, rest: seq<byte>)

  class Stream {
    var data: seq<byte>

    constructor ()
      ensures data == []
    {
      data := [];
    }

    method Write(b: byte)
      modifies this
      ensures data == old(data) + [b]
    {
      data := data + [b];
    }

    method WriteAll(s: seq<byte>)
      modifies this
      ensures data == old(data) + s
    {
      data := data + s;
    }

    /** Reading past the end raises an exception. */
    method Read(n: nat) returns (r: Option<seq<byte>>)
      modifies this
      ensures if n <= |old(data)| then r == Some(old(data)[..n]) && data == old(data)[n..] else r == None
    {
      if n > |data| { return None; }
      r := Some(data[..n]);
      data := data[n..];
    }
  }

  // ---- the encoding ----

  /** The digits before the last, each with its continuation bit. */
  function Lead(n: nat): seq<byte> {
    if n <= 0x7F then [n + 0x80] else Lead(n / 128 - 1) + [n % 128 + 0x80]
  }

  function VarInt(n: nat): seq<byte> {
    (if n <= 0x7F then [] else Lead(n / 128 - 1)) + [n % 128]
  }

  /** Reading without regard to width. */
  function ParseFrom(d: seq<byte>, acc: nat): Parsed<nat> {
    if d == [] then Fail
    else if d[0] >= 128 then ParseFrom(d[1..], acc * 128 + d[0] % 128 + 1)
    else Got(acc * 128 + d[0], d[1..])
  }

  /** Reading into an unsigned integer of the given width. */
  function ReadFrom(d: seq<byte>, acc: nat, m: nat): Parsed<nat>
    requires m > 0
  {
    if d == [] then Fail
    else
      var n := (acc * 128) % m + d[0] % 128;
      if d[0] >= 128 then ReadFrom(d[1..], (n + 1) % m, m) else Got(n, d[1..])
  }

  function ParseVarInt(d: seq<byte>, bits: nat): Parsed<nat> { ReadFrom(d, 0, Pow2(bits)) }

  // ---- one encoding for every integer ----

  lemma {:induction false} ParseLead(n: nat, rest: seq<byte>)
    ensures ParseFrom(Lead(n) + rest, 0) == ParseFrom(rest, n + 1)
  {
    if n > 0x7F {
      assert Lead(n) + rest == Lead(n / 128 - 1) + ([n % 128 + 0x80] + rest);
      ParseLead(n / 128 - 1, [n % 128 + 0x80] + rest);
    }
  }

  lemma ParseEncoded(n: nat, rest: seq<byte>)
    ensures ParseFrom(VarInt(n) + rest, 0) == Got(n, rest)
  {
    if n > 0x7F {
      assert VarInt(n) + rest == Lead(n / 128 - 1) + ([n % 128] + rest);
      ParseLead(n / 128 - 1, [n % 128] + rest);
    }
  }

  /** The digits of a number that has more to come. */
  function Begun(acc: nat): seq<byte> { if acc == 0 then [] else Lead(acc - 1) }

  lemma MoreDigits(acc: nat, c: nat)
    requires c < 128
    ensures Begun(acc * 128 + c + 1) == Begun(acc) + [c + 0x80]
    ensures VarInt(acc * 128 + c) == Begun(acc) + [c]
  {
    assert (acc * 128 + c) / 128 == acc && (acc * 128 + c) % 128 == c;
  }

  /** Whatever can be read was written: every byte sequence is a list of encoded integers. */
  lemma {:induction false} EncodeParsed(d: seq<byte>, acc: nat)
    requires ParseFrom(d, acc).Got?
    ensures var p := ParseFrom(d, acc); Begun(acc) + d == VarInt(p.value) + p.rest
  {
    MoreDigits(acc, d[0] % 128);
    FirstOff(Begun(acc), d);
    if d[0] >= 128 {
      EncodeParsed(d[1..], acc * 128 + d[0] % 128 + 1);
      assert [d[0] % 128 + 0x80] == [d[0]];
    } else {
      assert [d[0] % 128] == [d[0]];
    }
  }

  lemma FirstOff(a: seq<byte>, d: seq<byte>)
    requires d != []
    ensures a + d == (a + [d[0]]) + d[1..]
  {
  }

  lemma UniqueEncoding(d: seq<byte>, n: nat, rest: seq<byte>)
    ensures ParseFrom(d, 0) == Got(n, rest) <==> d == VarInt(n) + rest
  {
    ParseEncoded(n, rest);
    if ParseFrom(d, 0) == Got(n, rest) { EncodeParsed(d, 0); }
  }

  /** Reading into a fixed width keeps the integer modulo that width, whatever wraps on the way. */
  lemma {:induction false} ReadWraps(d: seq<byte>, acc: nat, m: nat)
    requires m > 0 && m % 128 == 0
    ensures var p := ParseFrom(d, acc);
            ReadFrom(d, acc % m, m) == if p.Got? then Got(p.value % m, p.rest) else Fail
  {
    if d != [] {
      var x := acc * 128 + d[0] % 128;
      ReadStep(d, acc, m, x);
      if d[0] >= 128 { ReadWraps(d[1..], x + 1, m); }
    }
  }

  lemma ReadStep(d: seq<byte>, acc: nat, m: nat, x: nat)
    requires d != [] && m > 0 && m % 128 == 0 && x == acc * 128 + d[0] % 128
    ensures ReadFrom(d, acc % m, m) == if d[0] >= 128 then ReadFrom(d[1..], (x + 1) % m, m) else Got(x % m, d[1..])
  {
    var c, r := d[0] % 128, acc % m;
    var n := (r * 128) % m + c;
    assert n == x % m by { DigitWraps(acc, c, m); }
    assert (n + 1) % m == (x + 1) % m by { PlusOneWraps(x, m); }
    ReadUnfold(d, r, c, m, n);
  }

  lemma ReadUnfold(d: seq<byte>, acc: nat, c: nat, m: nat, n: nat)
    requires d != [] && m > 0 && c == d[0] % 128 && n == (acc * 128) % m + c
    ensures ReadFrom(d, acc, m) == if d[0] >= 128 then ReadFrom(d[1..], (n + 1) % m, m) else Got(n, d[1..])
  {
  }

  lemma DigitWraps(acc: nat, c: nat, m: nat)
    requires m > 0 && m % 128 == 0 && c < 128
    ensures (acc % m * 128) % m + c == (acc * 128 + c) % m
  {
    var k, q, r := m / 128, acc / m, acc % m;
    assert m == k * 128 && acc == q * m + r;
    var t, u := (r * 128) / m, (r * 128) % m;
    assert r * 128 == t * m + u;
    assert u == 128 * (r - t * k) by { MulAssoc(t, k, 128); }
    assert u + c < m;
    assert acc * 128 + c == (q * 128 + t) * m + (u + c) by {
      MulDist(q * 128, t, m);
      MulAssoc(q, 128, m);
      MulAssoc(q, m, 128);
    }
    DivUnique(acc * 128 + c, m, q * 128 + t, u + c);
  }

  lemma PlusOneWraps(x: nat, m: nat)
    requires m > 0
    ensures (x % m + 1) % m == (x + 1) % m
  {
    var q, r := x / m, x % m;
    assert x == q * m + r;
    if r + 1 < m {
      DivUnique(x + 1, m, q, r + 1);
      DivUnique(r + 1, m, 0, r + 1);
    } else {
      MulDist(q, 1, m);
      DivUnique(x + 1, m, q + 1, 0);
      DivUnique(r + 1, m, 1, 0);
    }
  }

  /** What a fixed-width read makes of any bytes; integers that fit come back as written. */
  lemma VarIntRoundTrip(n: nat, rest: seq<byte>, bits: nat)
    requires bits >= 7
    ensures ParseVarInt(VarInt(n) + rest, bits) == Got(n % Pow2(bits), rest)
    ensures n < Pow2(bits) ==> ParseVarInt(VarInt(n) + rest, bits) == Got(n, rest)
  {
    var m := Pow2(bits);
    Pow2Add(bits - 7, 7);
    assert Pow2(7) == 128;
    DivUnique(m, 128, Pow2(bits - 7), 0);
    DivUnique(0, m, 0, 0);
    ReadWraps(VarInt(n) + rest, 0, m);
    ParseEncoded(n, rest);
    if n < m { DivUnique(n, m, 0, n); }
  }

  // ---- writing and reading in place ----

  /** Signed integers: a negative one passes for a last digit at once. */
  function SignedVarInt(n: int): seq<byte> { if n < 0 then [n % 128] else VarInt(n) }

  function AsSigned(n: nat): (r: int)
    ensures n < 0x1_0000_0000 ==> -0x8000_0000 <= r < 0x8000_0000 && (r == n || r == n - 0x1_0000_0000)
  {
    if n >= 0x8000_0000 then n - 0x1_0000_0000 else n
  }

  /** What a signed integer is read back as: of a negative one, the lowest seven bits are left. */
  function ComesBackAs(n: int): nat { if n >= 0 then n else n % 128 }

  /** A 32-bit signed integer comes back exactly when it is not negative. */
  lemma SignedRoundTrip(n: int, rest: seq<byte>)
    requires -0x8000_0000 <= n < 0x8000_0000
    ensures ParseVarInt(SignedVarInt(n) + rest, 32) == Got(ComesBackAs(n), rest)
    ensures AsSigned(ComesBackAs(n)) == ComesBackAs(n) && (ComesBackAs(n) == n <==> n >= 0)
  {
    var v := ComesBackAs(n);
    assert v < Pow2(32) by { TwoTo32(); }
    assert SignedVarInt(n) == VarInt(v);
    VarIntRoundTrip(v, rest, 32);
  }

  lemma TwoTo32()
    ensures Pow2(32) == 0x1_0000_0000
  {
    assert Pow2(8) == 256;
    Pow2Add(8, 8);
    Pow2Add(16, 16);
  }

  predicate Reversed(tail: seq<byte>, tmp: seq<byte>, len: nat) {
    |tail| == len <= |tmp| && forall k :: 0 <= k < len ==> tail[k] == tmp[len - 1 - k]
  }

  method WriteVarInt(os: Stream, v: int, bits: nat)
    requires bits >= 7 && v < Pow2(bits)
    modifies os
    ensures os.data == old(os.data) + SignedVarInt(v)
  {
    var tmp, len, tail := FindDigits(v, bits);
    WriteReversed(os, tmp, len, tail);
  }

  /** The digits are found last first, into a buffer that is large enough for the width. */
  method FindDigits(v: int, bits: nat) returns (tmp: array<byte>, len: nat, ghost tail: seq<byte>)
    requires bits >= 7 && v < Pow2(bits)
    ensures len < tmp.Length && Reversed(tail, tmp[..], len + 1) && tail == SignedVarInt(v)
  {
    tmp := new byte[(bits + 6) / 7](_ => 0);
    var n: int := v;
    len, tail := 0, [];
    ghost var left: nat := bits;
    while n > 0x7F
      invariant 7 * len + left == bits && left > 0 && n < Pow2(left)
      invariant Reversed(tail, tmp[..], len) && FoundSoFar(v, n, len, tail)
      decreases n
    {
      BufferFits(n, left);
      DigitFits(len, bits);
      FoundNext(v, n, len, tail);
      PutDigit(tmp, len, n, tail);
      tail := [Digit(n, len)] + tail;
      n := n / 128 - 1;
      len := len + 1;
      left := left - 7;
    }
    DigitFits(len, bits);
    FoundAll(v, n, len, tail);
    PutDigit(tmp, len, n, tail);
    tail := [Digit(n, len)] + tail;
  }

  function Digit(n: int, len: nat): byte { n % 128 + (if len > 0 then 0x80 else 0) }

  /** `tail` follows the digits of n in the form of v. */
  ghost predicate FoundSoFar(v: int, n: int, len: nat, tail: seq<byte>) {
    if v < 0 then n == v && len == 0 && tail == []
    else n >= 0 && VarInt(v) == (if len == 0 then VarInt(n) else Lead(n)) + tail
  }

  lemma FoundNext(v: int, n: int, len: nat, tail: seq<byte>)
    requires FoundSoFar(v, n, len, tail) && n > 0x7F
    ensures FoundSoFar(v, n / 128 - 1, len + 1, [Digit(n, len)] + tail)
  {
    assert Lead(n / 128 - 1) + ([Digit(n, len)] + tail) == (Lead(n / 128 - 1) + [Digit(n, len)]) + tail;
  }

  lemma FoundAll(v: int, n: int, len: nat, tail: seq<byte>)
    requires FoundSoFar(v, n, len, tail) && n <= 0x7F
    ensures [Digit(n, len)] + tail == SignedVarInt(v)
  {
  }

  method PutDigit(tmp: array<byte>, len: nat, n: int, ghost tail: seq<byte>)
    requires Reversed(tail, tmp[..], len) && len < tmp.Length
    modifies tmp
    ensures Reversed([Digit(n, len)] + tail, tmp[..], len + 1)
  {
    tmp[len] := n % 128 + (if len > 0 then 0x80 else 0);
  }

  lemma DigitFits(len: nat, bits: nat)
    requires 7 * len < bits
    ensures len < (bits + 6) / 7
  {
  }

  lemma BufferFits(n: nat, left: nat)
    requires n > 0x7F && n < Pow2(left)
    ensures left > 7 && n / 128 - 1 < Pow2(left - 7)
  {
    assert Pow2(7) == 128;
    if left <= 7 { Pow2Le(left, 7); } else { Pow2Add(7, left - 7); }
  }

  method WriteReversed(os: Stream, tmp: array<byte>, last: nat, ghost tail: seq<byte>)
    requires last < tmp.Length && Reversed(tail, tmp[..], last + 1)
    modifies os
    ensures os.data == old(os.data) + tail
  {
    var len := last;
    os.Write(tmp[len]);
    while len > 0
      invariant len <= last
      invariant os.data == old(os.data) + tail[..last + 1 - len]
    {
      len := len - 1;
      os.Write(tmp[len]);
      assert tail[..last + 1 - len] == tail[..last - len] + [tmp[len]];
    }
    assert tail[..last + 1] == tail;
  }

  method ReadVarInt(is_: Stream, bits: nat) returns (r: Option<nat>)
    modifies is_
    ensures var p := ParseVarInt(old(is_.data), bits);
            if p.Got? then r == Some(p.value) && is_.data == p.rest else r == None
  {
    var n: nat := 0;
    var m := Pow2(bits);
    DivUnique(0, m, 0, 0);
    while true
      invariant ParseVarInt(old(is_.data), bits) == ReadFrom(is_.data, n, m)
      decreases |is_.data|
    {
      var c := is_.Read(1);
      if c.None? { return None; }
      n := (n * 128) % m + c.value[0] % 128;
      if c.value[0] < 128 { return Some(n); }
      n := (n + 1) % m;
    }
  }
}

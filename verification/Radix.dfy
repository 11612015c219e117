/** Numbers as big-endian digits in any base, and the buffers that convert between bases. */
module Radix {
  import opened Bits
  import opened Wrappers

  /** The number a big-endian sequence of digits stands for. */
  function Num(b: nat, s: seq<nat>): (r: nat) {
    if s == [] then 0
    else
      Positive(Num(b, s[..|s| - 1]), b);
      Num(b, s[..|s| - 1]) * b + s[|s| - 1]
  }

  /** The digits of a number, without leading zeros. */
  function Digits(b: nat, n: nat): (r: seq<nat>)
    requires b >= 2
    ensures forall k :: 0 <= k < |r| ==> r[k] < b
  {
    if n == 0 then [] else
      Smaller(n, b);
      Digits(b, n / b) + [n % b]
  }

  lemma Smaller(n: nat, b: nat)
    requires b >= 2 && n > 0
    ensures 0 <= n / b < n
  {
    var q := n / b;
    assert n == q * b + n % b;
    if q >= n { MulLe(2, b, q); }
  }

  predicate DigitsIn(b: nat, s: seq<nat>) { forall k :: 0 <= k < |s| ==> s[k] < b }

  function Zeros(s: seq<nat>): (n: nat)
    ensures n <= |s| && (forall k :: 0 <= k < n ==> s[k] == 0) && (n < |s| ==> s[n] != 0)
  {
    if s == [] || s[0] != 0 then 0 else 1 + Zeros(s[1..])
  }

  function Repeat<T>(x: T, n: nat): (r: seq<T>)
    ensures |r| == n && forall k :: 0 <= k < n ==> r[k] == x
  {
    if n == 0 then [] else Repeat(x, n - 1) + [x]
  }

  // ---- numbers and their digits ----

  lemma NumSnoc(b: nat, s: seq<nat>, d: nat)
    ensures Num(b, s + [d]) == Num(b, s) * b + d
  {
    assert (s + [d])[..|s|] == s;
  }

  lemma {:induction false} NumCons(b: nat, d: nat, s: seq<nat>)
    ensures Num(b, [d] + s) == d * Pow(b, |s|) + Num(b, s)
  {
    if s == [] {
      assert [d] + s == [] + [d];
      NumSnoc(b, [], d);
    } else {
      var n := |s| - 1;
      NumCons(b, d, s[..n]);
      assert [d] + s == ([d] + s[..n]) + [s[n]];
      NumSnoc(b, [d] + s[..n], s[n]);
      MulDist(d * Pow(b, n), Num(b, s[..n]), b);
      Commute(d, Pow(b, n), b);
    }
  }

  lemma Commute(x: int, y: int, z: int)
    ensures x * y * z == x * (z * y)
  {
    MulAssoc(x, y, z);
  }

  lemma {:induction false} NumBound(b: nat, s: seq<nat>)
    requires b > 0 && DigitsIn(b, s)
    ensures Num(b, s) < Pow(b, |s|)
  {
    if s != [] {
      var n := |s| - 1;
      NumBound(b, s[..n]);
      MulLe(Num(b, s[..n]) + 1, Pow(b, n), b);
      MulDist(Num(b, s[..n]), 1, b);
    }
  }

  lemma {:induction false} NumZeros(b: nat, z: nat, s: seq<nat>)
    ensures Num(b, Repeat(0, z) + s) == Num(b, s)
  {
    var o := Repeat(0, z);
    if s == [] {
      assert o + s == o;
      NumNothing(b, z);
    } else {
      var n := |s| - 1;
      NumZeros(b, z, s[..n]);
      assert o + s == (o + s[..n]) + [s[n]];
      NumSnoc(b, o + s[..n], s[n]);
    }
  }

  lemma {:induction false} NumNothing(b: nat, z: nat)
    ensures Num(b, Repeat(0, z)) == 0
  {
    if z > 0 {
      NumNothing(b, z - 1);
      NumSnoc(b, Repeat(0, z - 1), 0);
    }
  }

  lemma {:induction false} NumDigits(b: nat, n: nat)
    requires b >= 2
    ensures Num(b, Digits(b, n)) == n
  {
    if n > 0 {
      Smaller(n, b);
      NumDigits(b, n / b);
      LastDigit(b, n, n / b, n % b, Digits(b, n / b));
    }
  }

  lemma LastDigit(b: nat, n: nat, q: nat, r: nat, s: seq<nat>)
    requires 0 < b && q == n / b && r == n % b && Num(b, s) == q
    ensures Num(b, s + [r]) == n
  {
    NumSnoc(b, s, r);
  }

  lemma {:induction false} NoLeadingZero(b: nat, n: nat)
    requires b >= 2 && n > 0
    ensures Digits(b, n) != [] && Digits(b, n)[0] != 0
  {
    Smaller(n, b);
    if n / b == 0 {
      DivUnique(n, b, 0, n % b);
      assert Digits(b, n) == [n % b];
    } else {
      NoLeadingZero(b, n / b);
    }
  }

  /** Digits without a leading zero are the digits of their number. */
  lemma {:induction false} DigitsNum(b: nat, s: seq<nat>)
    requires b >= 2 && DigitsIn(b, s) && (s != [] ==> s[0] != 0)
    ensures Digits(b, Num(b, s)) == s
  {
    if s != [] {
      var n := |s| - 1;
      DigitsNum(b, s[..n]);
      DivUnique(Num(b, s), b, Num(b, s[..n]), s[n]);
      assert s == s[..n] + [s[n]];
      if n == 0 {
        assert Num(b, s[..0]) == 0;
      } else {
        Positive(Num(b, s[..n]), b);
        assert Digits(b, Num(b, s[..n])) != [];
      }
    }
  }

  /** Leading zeros dropped, what is left are the digits of the number. */
  lemma DropZeros(b: nat, s: seq<nat>)
    requires b >= 2 && DigitsIn(b, s)
    ensures s[Zeros(s)..] == Digits(b, Num(b, s))
    ensures s == Repeat(0, Zeros(s)) + Digits(b, Num(b, s))
  {
    var z := Zeros(s);
    assert s == Repeat(0, z) + s[z..];
    NumZeros(b, z, s[z..]);
    DigitsNum(b, s[z..]);
  }

  // ---- the buffers are large enough ----

  function DigitRoom(n: nat): nat { n * 138 / 100 + 1 }

  function ByteRoom(n: nat): nat { n * 733 / 1000 + 1 }

  lemma {:induction false} PowGrow(b: nat, m: nat, n: nat)
    requires b > 0 && m <= n
    ensures Pow(b, m) <= Pow(b, n)
  {
    if m < n {
      PowGrow(b, m, n - 1);
      MulLe(1, b, Pow(b, n - 1));
    }
  }

  lemma PowProduct(b: nat, m: nat, n: nat, sum: nat, c: nat, p: nat, q: nat, room: nat)
    requires b > 0 && c > 0 && Pow(b, m) <= Pow(c, p) && Pow(b, n) <= Pow(c, q) && sum == m + n && p + q <= room
    ensures Pow(b, sum) <= Pow(c, room)
  {
    var x, y, u, v := Pow(b, m), Pow(c, p), Pow(b, n), Pow(c, q);
    var xu := PowSum(b, m, n, sum);
    var yv := PowSum(c, p, q, p + q);
    ProductLe(x, y, u, v, xu, yv);
    PowGrow(c, p + q, room);
  }

  lemma PowSum(b: nat, m: nat, n: nat, sum: nat) returns (r: nat)
    requires sum == m + n
    ensures r == Pow(b, sum) == Pow(b, m) * Pow(b, n)
  {
    PowAdd(b, m, n);
    r := Pow(b, sum);
  }

  lemma ProductLe(x: nat, y: nat, u: nat, v: nat, xu: nat, yv: nat)
    requires x <= y && u <= v && xu == x * u && yv == y * v
    ensures xu <= yv
  {
    MulLe(x, y, u);
    MulLe(u, v, y);
  }

  lemma Table58(b: nat)
    requires b == 58
    ensures Pow(b, 1) == 58 && Pow(b, 2) == 3364 && Pow(b, 3) == 195112 && Pow(b, 4) == 11316496
    ensures Pow(b, 5) == 656356768 && Pow(b, 6) == 38068692544 && Pow(b, 7) == 2207984167552
    ensures Pow(b, 8) == 128063081718016 && Pow(b, 9) == 7427658739644928 && Pow(b, 10) == 430804206899405824
    ensures Pow(b, 11) == 24986644000165537792 && Pow(b, 12) == 1449225352009601191936
    ensures Pow(b, 13) == 84055070416556869132288 && Pow(b, 14) == 4875194084160298409672704
    ensures Pow(b, 15) == 282761256881297307761016832
  {
    assert Pow(b, 0) == 1;
    assert Pow(b, 1) == 58;
    assert Pow(b, 2) == 3364;
    assert Pow(b, 3) == 195112;
    assert Pow(b, 4) == 11316496;
    assert Pow(b, 5) == 656356768;
    assert Pow(b, 6) == 38068692544;
    assert Pow(b, 7) == 2207984167552;
    assert Pow(b, 8) == 128063081718016;
    assert Pow(b, 9) == 7427658739644928;
    assert Pow(b, 10) == 430804206899405824;
    assert Pow(b, 11) == 24986644000165537792;
    assert Pow(b, 12) == 1449225352009601191936;
    assert Pow(b, 13) == 84055070416556869132288;
    assert Pow(b, 14) == 4875194084160298409672704;
    assert Pow(b, 15) == 282761256881297307761016832;
  }

  lemma Table256(c: nat)
    requires c == 256
    ensures Pow(c, 1) == 256 && Pow(c, 2) == 65536 && Pow(c, 3) == 16777216 && Pow(c, 4) == 4294967296
    ensures Pow(c, 5) == 1099511627776 && Pow(c, 6) == 281474976710656 && Pow(c, 7) == 72057594037927936
    ensures Pow(c, 8) == 18446744073709551616 && Pow(c, 9) == 4722366482869645213696
    ensures Pow(c, 10) == 1208925819614629174706176 && Pow(c, 11) == 309485009821345068724781056
    ensures Pow(c, 12) == 79228162514264337593543950336 && Pow(c, 13) == 20282409603651670423947251286016
  {
    assert Pow(c, 0) == 1;
    assert Pow(c, 1) == 256;
    assert Pow(c, 2) == 65536;
    assert Pow(c, 3) == 16777216;
    assert Pow(c, 4) == 4294967296;
    assert Pow(c, 5) == 1099511627776;
    assert Pow(c, 6) == 281474976710656;
    assert Pow(c, 7) == 72057594037927936;
    assert Pow(c, 8) == 18446744073709551616;
    assert Pow(c, 9) == 4722366482869645213696;
    assert Pow(c, 10) == 1208925819614629174706176;
    assert Pow(c, 11) == 309485009821345068724781056;
    assert Pow(c, 12) == 79228162514264337593543950336;
    assert Pow(c, 13) == 20282409603651670423947251286016;
  }

  lemma SeventyOne(b: nat, c: nat) returns (m: nat, p: nat)
    requires b == 58 && c == 256
    ensures m == 71 && p == 52 && Pow(b, m) <= Pow(c, p)
  {
    m, p := 71, 52;
    Table58(b);
    Table256(c);
    PowAdd(b, 15, 15);
    PowAdd(b, 30, 30);
    PowAdd(b, 60, 11);
    PowAdd(c, 13, 13);
    PowAdd(c, 26, 26);
  }

  /** 256^8 <= 58^11 carries the ratio 138/100 to every length. */
  lemma {:induction false} EncodeRoom(n: nat, b: nat, c: nat)
    requires b == 58 && c == 256
    ensures DigitRoom(n) == n * 138 / 100 + 1 && Pow(c, n) <= Pow(b, DigitRoom(n))
  {
    if n < 8 {
      EncodeRoomSmall(n, b, c);
    } else {
      EncodeRoom(n - 8, b, c);
      var m, p := EightFit(b, c);
      EightMore(n);
      PowProduct(c, n - 8, m, n, b, DigitRoom(n - 8), p, DigitRoom(n));
    }
  }

  lemma EncodeRoomSmall(n: nat, b: nat, c: nat)
    requires n < 8 && b == 58 && c == 256
    ensures Pow(c, n) <= Pow(b, DigitRoom(n))
  {
    Table58(b);
    Table256(c);
    var room := DigitRoom(n);
    if n == 0 {
      assert Pow(c, 0) == 1 && room == 1;
    } else if n < 3 {
      assert room == if n == 1 then 2 else 3;
    } else if n < 5 {
      assert room == if n == 3 then 5 else 6;
    } else {
      assert room == if n == 5 then 7 else if n == 6 then 9 else 10;
    }
  }

  lemma EightFit(b: nat, c: nat) returns (m: nat, p: nat)
    requires b == 58 && c == 256
    ensures m == 8 && p == 11 && Pow(c, m) <= Pow(b, p)
  {
    m, p := 8, 11;
    Table58(b);
    Table256(c);
  }

  lemma EightMore(n: nat)
    requires n >= 8
    ensures DigitRoom(n - 8) + 11 <= DigitRoom(n)
  {
  }

  /** 58^71 <= 256^52 carries the ratio 733/1000 to every length; below 71, 58^15 <= 256^11 does. */
  lemma {:induction false} DecodeRoom(n: nat, b: nat, c: nat)
    requires b == 58 && c == 256
    ensures ByteRoom(n) == n * 733 / 1000 + 1 && Pow(b, n) <= Pow(c, ByteRoom(n))
  {
    if n < 71 {
      DecodeRoomBelow(n, b, c);
    } else {
      DecodeRoom(n - 71, b, c);
      SeventyOneMore(n - 71, ByteRoom(n - 71), n, ByteRoom(n), b, c);
    }
  }

  lemma DecodeRoomBelow(n: nat, b: nat, c: nat)
    requires n < 71 && b == 58 && c == 256
    ensures Pow(b, n) <= Pow(c, ByteRoom(n))
  {
    var p, q := n / 15, n % 15;
    var e := 11 * p + if q == 0 then 0 else ByteRoom(q);
    DecodeRoomSmall(p, q, n, e, b, c);
    Ratio(p, q, n);
    PowGrow(c, e, ByteRoom(n));
  }

  lemma SeventyOneMore(n: nat, e: nat, more: nat, room: nat, b: nat, c: nat)
    requires b == 58 && c == 256 && Pow(b, n) <= Pow(c, e) && more == n + 71 && e + 52 <= room
    ensures Pow(b, more) <= Pow(c, room)
  {
    var m, p := SeventyOne(b, c);
    PowProduct(b, n, m, more, c, e, p, room);
  }

  lemma {:induction false} DecodeRoomSmall(p: nat, q: nat, n: nat, e: nat, b: nat, c: nat)
    requires p < 5 && q < 15 && b == 58 && c == 256 && n == 15 * p + q
    requires e == 11 * p + if q == 0 then 0 else ByteRoom(q)
    ensures Pow(b, n) <= Pow(c, e)
  {
    if p > 0 {
      DecodeRoomSmall(p - 1, q, n - 15, e - 11, b, c);
      FifteenMore(n - 15, e - 11, n, e, b, c);
    } else {
      BelowFifteen(q, e, b, c);
    }
  }

  lemma FifteenMore(n: nat, e: nat, more: nat, room: nat, b: nat, c: nat)
    requires b == 58 && c == 256 && Pow(b, n) <= Pow(c, e) && more == n + 15 && room == e + 11
    ensures Pow(b, more) <= Pow(c, room)
  {
    var m, p := FifteenFit(b, c);
    PowProduct(b, n, m, more, c, e, p, room);
  }

  lemma FifteenFit(b: nat, c: nat) returns (m: nat, p: nat)
    requires b == 58 && c == 256
    ensures m == 15 && p == 11 && Pow(b, m) <= Pow(c, p)
  {
    Table58(b);
    Table256(c);
    m, p := 15, 11;
  }

  lemma BelowFifteen(q: nat, e: nat, b: nat, c: nat)
    requires q < 15 && b == 58 && c == 256 && e == if q == 0 then 0 else ByteRoom(q)
    ensures Pow(b, q) <= Pow(c, e)
  {
    if q == 0 {
      assert Pow(b, 0) == Pow(c, 0);
    } else if q < 8 {
      BelowEight(q, b, c);
    } else {
      FromEight(q, b, c);
    }
  }

  lemma BelowEight(q: nat, b: nat, c: nat)
    requires 0 < q < 8 && b == 58 && c == 256
    ensures Pow(b, q) <= Pow(c, ByteRoom(q))
  {
    Table58(b);
    Table256(c);
  }

  lemma FromEight(q: nat, b: nat, c: nat)
    requires 8 <= q < 15 && b == 58 && c == 256
    ensures Pow(b, q) <= Pow(c, ByteRoom(q))
  {
    Table58(b);
    Table256(c);
  }

  lemma Ratio(a: nat, c: nat, n: nat)
    requires a < 5 && c < 15 && n == 15 * a + c
    ensures 11 * a + (if c == 0 then 0 else ByteRoom(c)) <= ByteRoom(n)
  {
  }

  // ---- the buffers ----

  /** Multiply a big-endian buffer by a factor and add a digit, in place, from its last place up. */
  method ShiftIn(buf: array<byte>, base: nat, factor: nat, digit: nat)
    requires 2 <= base <= 256 && DigitsIn(base, buf[..])
    requires Num(base, buf[..]) * factor + digit < Pow(base, buf.Length)
    modifies buf
    ensures DigitsIn(base, buf[..])
    ensures Num(base, buf[..]) == old(Num(base, buf[..])) * factor + digit
  {
    ghost var was: seq<nat>, done: seq<nat> := buf[..], [];
    var carry: nat := digit;
    var j := buf.Length;
    ShiftStart(base, factor, digit, was);
    while j > 0
      invariant 0 <= j <= buf.Length && Shifting(base, factor, digit, was, buf[..], j, done, carry)
    {
      j := j - 1;
      var n := AddProduct(carry, factor, buf[j]);
      var d, c := Split(n, base);
      done := ShiftStep(base, factor, digit, was, buf[..], j, done, carry, n, d, c);
      buf[j] := d;
      carry := c;
    }
    ShiftEnd(base, factor, digit, was, buf[..], done, carry);
    assert carry == 0;
  }

  /** From place j on, the buffer holds `done`, and the carry is what is missing. */
  ghost predicate Shifting(b: nat, factor: nat, digit: nat, was: seq<nat>, now: seq<nat>, j: nat, done: seq<nat>,
                           carry: nat) {
    && j <= |was| && |done| == |was| - j && now == was[..j] + done && DigitsIn(b, done)
    && Num(b, done) + carry * Pow(b, |done|) == Num(b, was[j..]) * factor + digit
  }

  lemma ShiftStart(b: nat, factor: nat, digit: nat, was: seq<nat>)
    ensures Shifting(b, factor, digit, was, was, |was|, [], digit)
  {
    assert Num(b, was[|was|..]) == 0 && Pow(b, 0) == 1;
  }

  lemma ShiftEnd(b: nat, factor: nat, digit: nat, was: seq<nat>, now: seq<nat>, done: seq<nat>, carry: nat)
    requires Shifting(b, factor, digit, was, now, 0, done, carry) && Num(b, was) * factor + digit < Pow(b, |was|)
    ensures carry == 0 && DigitsIn(b, now) && Num(b, now) == Num(b, was) * factor + digit
  {
    assert was[0..] == was && now == done;
    NoCarry(Num(b, done), carry, Pow(b, |done|));
  }

  function AddProduct(carry: nat, factor: nat, d: nat): (n: nat)
    ensures n == carry + factor * d
  {
    Positive(factor, d);
    carry + factor * d
  }

  method Split(n: nat, base: nat) returns (d: byte, c: nat)
    requires 2 <= base <= 256
    ensures d < base && n == c * base + d
  {
    d := n % base;
    c := n / base;
  }

  lemma NoCarry(v: nat, carry: nat, p: nat)
    requires v + carry * p < p
    ensures carry == 0
  {
    if carry > 0 { MulLe(1, carry, p); }
  }

  lemma ShiftStep(b: nat, factor: nat, digit: nat, was: seq<nat>, now: seq<nat>, j: nat, done: seq<nat>, carry: nat,
                  n: nat, d: nat, c: nat)
    returns (more: seq<nat>)
    requires j < |was| && Shifting(b, factor, digit, was, now, j + 1, done, carry)
    requires n == carry + factor * was[j] && d < b && n == c * b + d
    ensures j < |now| && Shifting(b, factor, digit, was, now[j := d], j, more, c)
  {
    more := [d] + done;
    ShiftNumber(b, factor, digit, was[j], was[j + 1..], done, carry, n, d, c);
    assert was[j..] == [was[j]] + was[j + 1..];
    assert now[j := d] == was[..j] + more;
  }

  lemma ShiftNumber(b: nat, factor: nat, digit: nat, w: nat, was: seq<nat>, done: seq<nat>, carry: nat, n: nat,
                    d: nat, c: nat)
    requires |done| == |was| && n == carry + factor * w && n == c * b + d
    requires Num(b, done) + carry * Pow(b, |done|) == Num(b, was) * factor + digit
    ensures Num(b, [d] + done) + c * Pow(b, |[d] + done|) == Num(b, [w] + was) * factor + digit
  {
    NumCons(b, d, done);
    NumCons(b, w, was);
    ShiftSum(n, d, c, b, Pow(b, |done|), carry, factor, w, Num(b, was), Num(b, done), digit);
  }

  lemma ShiftSum(n: nat, d: nat, c: nat, b: nat, p: nat, carry: nat, factor: nat, w: nat, rest: nat, low: nat,
                 digit: nat)
    requires n == c * b + d && n == carry + factor * w
    requires low + carry * p == rest * factor + digit
    ensures d * p + low + c * (b * p) == (w * p + rest) * factor + digit
  {
    MulDist(c * b, d, p);
    MulAssoc(c, b, p);
    MulDist(carry, factor * w, p);
    MulDist(w * p, rest, factor);
    MulAssoc(factor, w, p);
  }

  lemma {:induction false} ZerosIs(s: seq<nat>, z: nat)
    requires z <= |s| && (forall k :: 0 <= k < z ==> s[k] == 0) && (z < |s| ==> s[z] != 0)
    ensures z == Zeros(s)
  {
    var n := Zeros(s);
  }

  lemma {:induction false} NumAllZero(b: nat, s: seq<nat>)
    requires forall k :: 0 <= k < |s| ==> s[k] == 0
    ensures Num(b, s) == 0
  {
    var o: seq<nat> := Repeat(0, |s|);
    assert s == o;
    NumNothing(b, |s|);
  }

  method SkipZeros(s: array<byte>, z: nat) returns (it: nat)
    requires z <= s.Length && forall k :: 0 <= k < z ==> s[k] == 0
    ensures it == Zeros(s[..])
  {
    it := z;
    while it < s.Length && s[it] == 0
      invariant it <= s.Length && forall k :: 0 <= k < it ==> s[k] == 0
    {
      it := it + 1;
    }
    ZerosIs(s[..], it);
  }
}
